/**
 The sharer's bitrate adaptation: evaluation windows judged congested or clean, a
 multiplicative decrease after a run of congested ones, an increase toward the user's
 ceiling after a run of clean ones, and two gates on what is published to the encoder.
 */
module BitrateControl {
  import opened Basics
  import opened CongestionWindow
  import BaseRtt

  /** Factors and the smallest published change are real numbers here. */
  datatype Config = Config(
    minBps: Bps, windowMs: nat, congestedWindows: nat, cleanWindows: nat,
    decrease: real, goodputFactor: real, increase: real,
    minReconfigureMs: nat, minDelta: real,
    limits: Limits, defaultRttUs: nat)

  /** What `reset` makes of the counts it is given. */
  ghost predicate Sane(c: Config) {
    c.windowMs >= 1 && c.congestedWindows >= 1 && c.cleanWindows >= 1
  }

  function Normalize(c: Config): (r: Config)
    ensures Sane(r)
    ensures Sane(c) ==> r == c
  {
    c.(windowMs := if c.windowMs == 0 then 1 else c.windowMs,
       congestedWindows := if c.congestedWindows == 0 then 1 else c.congestedWindows,
       cleanWindows := if c.cleanWindows == 0 then 1 else c.cleanWindows)
  }

  /** Rounded to the nearest integer and kept within 32 bits. */
  function Scale(bps: Bps, factor: real): Bps {
    var x := (bps as real) * factor;
    if x <= 0.0 then 0
    else if x >= 4294967295.0 then 4294967295
    else Min((x + 0.5).Floor, MAX_U32)
  }

  datatype State = State(
    target: Bps,
    bitrate: Bps,
    congested: nat,
    clean: nat,
    windowStart: Option<int>,
    published: Bps,
    lastPublish: int,
    pending: Bps)

  function Fresh(target: Bps): State {
    var t := if target == 0 then 1 else target;
    State(t, t, 0, 0, None, t, 0, t)
  }

  function Floor(c: Config, s: State): Bps { Min(c.minBps, s.target) }

  // ---- publishing ----

  function Publish(c: Config, s: State, now: int, force: bool): State {
    if force || PublishNow(c, s, now)
    then s.(published := s.bitrate, lastPublish := now, pending := s.bitrate) else s
  }

  function Magnitude(x: real): real { if x < 0.0 then -x else x }

  /** The delta gate lets a value through that sits on a bound it cannot leave. */
  predicate PublishNow(c: Config, s: State, now: int) {
    && s.bitrate != s.published
    && (s.published == 0 || s.bitrate == s.target || s.bitrate == Floor(c, s) ||
        Magnitude((s.bitrate as real) - (s.published as real)) / (s.published as real) >= c.minDelta)
    && now - s.lastPublish >= c.minReconfigureMs * 1000
  }

  // ---- the entry points ----

  function SetTarget(c: Config, s: State, bps: Bps): State {
    if bps == 0 then s
    else
      var s1 := s.(target := bps);
      if s.bitrate > bps then Publish(c, s1.(bitrate := bps), s1.lastPublish, true) else s1
  }

  predicate Closes(c: Config, s: State, now: int) {
    s.windowStart.Some? && now - s.windowStart.value >= c.windowMs * 1000
  }

  function CloseWindow(c: Config, s: State, now: int, v: Verdict): State {
    var s1 := if v.congested then Congested(c, s, v.goodput) else Clean(c, s);
    s1.(windowStart := Some(now))
  }

  function Congested(c: Config, s: State, goodput: Bps): State {
    if s.congested + 1 >= c.congestedWindows then
      var byFactor := Scale(s.bitrate, c.decrease);
      var lower := if goodput > 0 then Min(byFactor, Scale(goodput, c.goodputFactor)) else byFactor;
      var reduced := Max(Floor(c, s), lower);
      s.(clean := 0, congested := 0, bitrate := if reduced < s.bitrate then reduced else s.bitrate)
    else s.(clean := 0, congested := s.congested + 1)
  }

  function Clean(c: Config, s: State): State {
    if s.clean + 1 >= c.cleanWindows then
      var scaled := Scale(s.bitrate, c.increase);
      var raised := Min(if scaled <= s.bitrate < s.target then s.bitrate + 1 else scaled, s.target);
      s.(congested := 0, clean := 0, bitrate := if raised > s.bitrate then raised else s.bitrate)
    else s.(congested := 0, clean := s.clean + 1)
  }

  function Start(windowStart: Option<int>, now: int): int {
    if windowStart.Some? then windowStart.value else now
  }

  /** What a tick finds queued beyond what is merely in flight. */
  function SampleAt(bitrate: Bps, outstanding: nat, rtt: nat, loss: real): CongestionWindow.Event {
    Sample(QueueDelayMs(outstanding, bitrate, InFlightUs(rtt, loss)))
  }

  /** A tick up to its publishing: the window is opened, and closed if it is over. */
  function Advance(c: Config, s: State, now: int, v: Verdict): State {
    var s1 := s.(windowStart := Some(Start(s.windowStart, now)));
    if Closes(c, s1, now) then CloseWindow(c, s1, now, v) else s1
  }

  function Tick(c: Config, s: State, now: int, v: Verdict): State {
    Publish(c, Advance(c, s, now, v), now, false)
  }

  /** The connection's absolute packet counters. */
  datatype Counters = Counters(suspected: nat, spurious: nat, sent: nat)

  /** How far a counter has moved; one that went back counts as still. */
  function Since(before: nat, now: nat): nat { if now >= before then now - before else 0 }

  /** The packets lost and sent between two readings; losses that turned out spurious do not count. */
  function Between(a: Counters, b: Counters): CongestionWindow.Event {
    var suspected, spurious := Since(a.suspected, b.suspected), Since(a.spurious, b.spurious);
    Packets(Since(spurious, suspected), Since(a.sent, b.sent))
  }

  // ---- the controller as it is built ----

  class RateController {
    var cfg: Config
    var target: Bps
    var bitrate: Bps
    var congested: nat
    var clean: nat
    var windowStart: Option<int>
    var published: Bps
    var lastPublish: int
    var pending: Bps
    var window: Window
    var loss: real
    var path: BaseRtt.Path
    var counters: Option<Counters>
    /** Everything that happened in the open window. */
    ghost var seen: seq<CongestionWindow.Event>

    ghost function Model(): State
      reads this
    {
      State(target, bitrate, congested, clean, windowStart, published, lastPublish, pending)
    }

    /** The counters of the open window are those of its events. */
    ghost predicate Counted()
      reads this
    {
      window == After(seen)
    }

    constructor (c: Config, t: Bps)
      ensures cfg == Normalize(c) && Model() == Fresh(t)
      ensures Counted() && seen == [] && loss == 0.0
      ensures path == BaseRtt.Unmeasured(c.defaultRttUs) && counters == None
    {
      window, loss, seen := EMPTY, 0.0, [];
      path, counters := BaseRtt.Unmeasured(c.defaultRttUs), None;
      cfg := Normalize(c);
      target, bitrate := if t == 0 then 1 else t, if t == 0 then 1 else t;
      congested, clean, windowStart := 0, 0, None;
      published, lastPublish, pending := if t == 0 then 1 else t, 0, if t == 0 then 1 else t;
    }

    method PublishIfNeeded(now: int, force: bool)
      modifies `published, `lastPublish, `pending
      ensures Model() == Publish(cfg, old(Model()), now, force)
    {
      if !force {
        if bitrate == published { return; }
        var atBound := bitrate == target || bitrate == Min(cfg.minBps, target);
        if published != 0 && !atBound {
          var delta := Magnitude((bitrate as real) - (published as real)) / (published as real);
          if delta < cfg.minDelta { return; }
        }
        if now - lastPublish < cfg.minReconfigureMs * 1000 { return; }
      }
      published, lastPublish, pending := bitrate, now, bitrate;
    }

    method SetTargetBitrate(bps: Bps)
      modifies `target, `bitrate, `published, `lastPublish, `pending
      ensures Model() == SetTarget(cfg, old(Model()), bps)
    {
      if bps == 0 { return; }
      target := bps;
      if bitrate > bps {
        bitrate := bps;
        PublishIfNeeded(lastPublish, true);
      }
    }

    method CloseCongested(goodput: Bps)
      modifies `congested, `clean, `bitrate
      ensures Model() == Congested(cfg, old(Model()), goodput)
    {
      clean := 0;
      congested := congested + 1;
      if congested >= cfg.congestedWindows {
        congested := 0;
        var reduced := Scale(bitrate, cfg.decrease);
        if goodput > 0 { reduced := Min(reduced, Scale(goodput, cfg.goodputFactor)); }
        reduced := Max(Min(cfg.minBps, target), reduced);
        if reduced < bitrate { bitrate := reduced; }
      }
    }

    method CloseClean()
      modifies `congested, `clean, `bitrate
      ensures Model() == Clean(cfg, old(Model()))
    {
      congested := 0;
      clean := clean + 1;
      if clean >= cfg.cleanWindows {
        clean := 0;
        var raised := Scale(bitrate, cfg.increase);
        if raised <= bitrate && bitrate < target { raised := bitrate + 1; }
        raised := Min(raised, target);
        if raised > bitrate { bitrate := raised; }
      }
    }

    /** A frame admitted, skipped or lost, bytes completed, or packet counts, as the transport and the encoder report them. */
    method Record(e: CongestionWindow.Event)
      requires Counted()
      modifies `window, `seen
      ensures Counted() && seen == old(seen) + [e]
    {
      window := Count(window, e);
      seen := seen + [e];
      assert seen[..|seen| - 1] == old(seen);
    }

    method OnConnectionStats(now: int, rtt: nat, reading: Counters)
      requires Counted()
      modifies `window, `seen, `path, `counters
      ensures Counted() && counters == Some(reading) && path == BaseRtt.Measured(old(path), now, rtt)
      ensures seen == old(seen) + if old(counters).Some? then [Between(old(counters).value, reading)] else []
    {
      if counters.Some? {
        Record(Between(counters.value, reading));
      }
      counters := Some(reading);
      path := BaseRtt.Measured(path, now, rtt);
    }

    method CloseJudged(v: Verdict, now: int)
      modifies `congested, `clean, `bitrate, `windowStart
      ensures Model() == CloseWindow(cfg, old(Model()), now, v)
    {
      if v.congested { CloseCongested(v.goodput); } else { CloseClean(); }
      windowStart := Some(now);
    }

    /** Opens the first window; closes one that is over, judged by everything that happened in it. */
    method CloseIfOver(now: int)
      requires Counted()
      modifies `congested, `clean, `bitrate, `windowStart, `window, `loss, `seen
      ensures Counted()
      ensures var start := Start(old(windowStart), now);
        && Model() == Advance(cfg, old(Model()), now, Judge(cfg.limits, After(old(seen)), now - start))
        && seen == (if now - start >= cfg.windowMs * 1000 then [] else old(seen))
        && loss == (if now - start >= cfg.windowMs * 1000 then LossRatio(After(old(seen))) else old(loss))
    {
      if windowStart.None? { windowStart := Some(now); }
      if now - windowStart.value >= cfg.windowMs * 1000 {
        loss := LossRatio(window);
        CloseJudged(Judge(cfg.limits, window, now - windowStart.value), now);
        window, seen := EMPTY, [];
      }
    }

    /**
     One tick: samples the queue, closes the window if it is over, judged by everything that
     happened in it, and publishes. The bytes outstanding are given.
     */
    method DoTick(now: int, outstanding: nat)
      requires Counted()
      modifies `bitrate, `congested, `clean, `windowStart, `published, `lastPublish, `pending, `window, `loss, `seen
      ensures Counted()
      ensures var start := Start(old(windowStart), now);
        var events := old(seen) + [SampleAt(old(bitrate), outstanding, old(path).rtt, old(loss))];
        && Model() == Tick(cfg, old(Model()), now, Judge(cfg.limits, After(events), now - start))
        && seen == (if now - start >= cfg.windowMs * 1000 then [] else events)
        && loss == (if now - start >= cfg.windowMs * 1000 then LossRatio(After(events)) else old(loss))
    {
      Record(SampleAt(bitrate, outstanding, path.rtt, loss));
      ghost var s, v := Model(), Judge(cfg.limits, After(seen), now - Start(windowStart, now));
      CloseIfOver(now);
      assert Model() == Advance(cfg, s, now, v);
      PublishIfNeeded(now, false);
    }

    method TakeBitrateUpdate() returns (v: Option<Bps>)
      modifies `pending
      ensures Model() == old(Model()).(pending := 0)
      ensures v == if old(pending) == 0 then None else Some(old(pending))
    {
      v := if pending == 0 then None else Some(pending);
      pending := 0;
    }
  }

  // ---- bounds over every run ----

  datatype Event = Target(bps: Bps) | Ticked(now: int, verdict: Verdict) | Taken

  /** `lowest` is the smallest ceiling since the reset; `stamps` the times of the tick's own publications. */
  datatype History = History(state: State, lowest: Bps, stamps: seq<int>)

  function Apply(c: Config, h: History, e: Event): History {
    match e
    case Target(bps) =>
      History(SetTarget(c, h.state, bps), if bps == 0 then h.lowest else Min(h.lowest, bps), h.stamps)
    case Ticked(now, v) =>
      var s := Tick(c, h.state, now, v);
      History(s, h.lowest, if s.published != h.state.published then h.stamps + [now] else h.stamps)
    case Taken => h.(state := h.state.(pending := 0))
  }

  function Run(c: Config, target: Bps, events: seq<Event>): History
    decreases |events|
  {
    if events == [] then History(Fresh(target), Fresh(target).target, [])
    else Apply(c, Run(c, target, events[..|events| - 1]), events[|events| - 1])
  }

  ghost predicate SpacedAt(c: Config, stamps: seq<int>, i: nat)
    requires i < |stamps|
  {
    stamps[i] - (if i == 0 then 0 else stamps[i - 1]) >= c.minReconfigureMs * 1000
  }

  ghost predicate Good(c: Config, h: History) {
    var s := h.state;
    && 0 < h.lowest <= s.target
    && Min(c.minBps, h.lowest) <= s.bitrate <= s.target
    && s.clean < c.cleanWindows && s.congested < c.congestedWindows
    && (s.pending == 0 || s.pending == s.published)
    && (forall i :: 0 <= i < |h.stamps| ==> SpacedAt(c, h.stamps, i))
    && s.lastPublish == (if h.stamps == [] then 0 else h.stamps[|h.stamps| - 1])
  }

  /** Opening, judging and closing windows keeps the bitrate and the round counters in their limits. */
  lemma {:induction false} AdvanceKeeps(c: Config, s: State, lowest: int, now: int, v: Verdict)
    requires Sane(c) && 0 < lowest <= s.target
    requires Min(c.minBps, lowest) <= s.bitrate <= s.target
    requires s.clean < c.cleanWindows && s.congested < c.congestedWindows
    ensures var t := Advance(c, s, now, v);
      && t == s.(bitrate := t.bitrate, clean := t.clean, congested := t.congested, windowStart := t.windowStart)
      && Min(c.minBps, lowest) <= t.bitrate <= t.target
      && t.clean < c.cleanWindows && t.congested < c.congestedWindows
  {
  }

  lemma {:induction false} SpacedExtends(c: Config, stamps: seq<int>, now: int)
    requires forall i :: 0 <= i < |stamps| ==> SpacedAt(c, stamps, i)
    requires now - (if stamps == [] then 0 else stamps[|stamps| - 1]) >= c.minReconfigureMs * 1000
    ensures forall i :: 0 <= i < |stamps| + 1 ==> SpacedAt(c, stamps + [now], i)
  {
    forall i | 0 <= i < |stamps| + 1
      ensures SpacedAt(c, stamps + [now], i)
    {
      if i < |stamps| { assert SpacedAt(c, stamps, i); }
    }
  }

  lemma {:induction false} TickKeeps(c: Config, h: History, now: int, v: Verdict)
    requires Sane(c) && Good(c, h)
    ensures Good(c, Apply(c, h, Ticked(now, v)))
  {
    var t := Advance(c, h.state, now, v);
    AdvanceKeeps(c, h.state, h.lowest, now, v);
    if PublishNow(c, t, now) { SpacedExtends(c, h.stamps, now); }
  }

  lemma {:induction false} ApplyKeeps(c: Config, h: History, e: Event)
    requires Sane(c) && Good(c, h)
    ensures Good(c, Apply(c, h, e))
  {
    if e.Ticked? { TickKeeps(c, h, e.now, e.verdict); }
  }

  /**
   Over every run the adapted bitrate stays at or below the current ceiling and at or above
   the smaller of the configured minimum and the lowest ceiling since the reset; what is
   pending is what was last published; and the tick's publications are rate-limited.
   */
  lemma {:induction false} EveryRunIsBounded(c: Config, target: Bps, events: seq<Event>)
    requires Sane(c)
    ensures Good(c, Run(c, target, events))
    decreases |events|
  {
    if events == [] {
    } else {
      EveryRunIsBounded(c, target, events[..|events| - 1]);
      ApplyKeeps(c, Run(c, target, events[..|events| - 1]), events[|events| - 1]);
    }
  }

  // ---- decrease ----

  lemma {:induction false} ScaleShrinks(bps: Bps, factor: real)
    requires (bps as real) * (1.0 - factor) > 0.5
    ensures Scale(bps, factor) < bps
  {
    var x := (bps as real) * factor;
    assert x == (bps as real) - (bps as real) * (1.0 - factor);
    assert x + 0.5 < bps as real;
  }

  /**
   The window that completes a run of congested ones lowers the bitrate to the scaled value,
   or straight below what the link delivered, but never under the floor; and it does lower
   it whenever the scaled step is at least half a bit and the floor leaves room.
   */
  lemma {:induction false} CongestedRoundDecreases(c: Config, s: State, goodput: Bps)
    requires s.congested + 1 >= c.congestedWindows
    ensures var t := Congested(c, s, goodput);
      && t.bitrate <= Max(Floor(c, s), Scale(s.bitrate, c.decrease))
      && (goodput > 0 ==> t.bitrate <= Max(Floor(c, s), Scale(goodput, c.goodputFactor)))
      && (s.bitrate >= Floor(c, s) ==> Floor(c, s) <= t.bitrate <= s.bitrate)
      && (s.bitrate > Floor(c, s) && (s.bitrate as real) * (1.0 - c.decrease) > 0.5 ==> t.bitrate < s.bitrate)
  {
    if (s.bitrate as real) * (1.0 - c.decrease) > 0.5 { ScaleShrinks(s.bitrate, c.decrease); }
  }

  // ---- convergence ----

  const CLEAN := Verdict(false, 0)

  /** A run of clean ticks. */
  function CleanTicks(c: Config, s: State, times: seq<int>): State
    decreases |times|
  {
    if times == [] then s else Tick(c, CleanTicks(c, s, times[..|times| - 1]), times[|times| - 1], CLEAN)
  }

  /** How many of its ticks closed a window. */
  function Closings(c: Config, s: State, times: seq<int>): nat
    decreases |times|
  {
    if times == [] then 0
    else
      var n := |times| - 1;
      Closings(c, s, times[..n]) + if Closes(c, CleanTicks(c, s, times[..n]), times[n]) then 1 else 0
  }

  /** Progress toward the ceiling: windows count, and a whole round of them counts as a step up. */
  function Progress(c: Config, s: State): int {
    s.bitrate * c.cleanWindows + s.clean
  }

  lemma {:induction false} CleanRoundRaises(c: Config, s: State)
    requires s.bitrate <= s.target
    ensures var t := Clean(c, s);
      && t == s.(bitrate := t.bitrate, clean := t.clean, congested := 0)
      && s.bitrate <= t.bitrate <= s.target
      && (s.bitrate < s.target && s.clean + 1 >= c.cleanWindows ==> t.bitrate >= s.bitrate + 1)
      && t.clean == (if s.clean + 1 >= c.cleanWindows then 0 else s.clean + 1)
      && (s.clean + 1 < c.cleanWindows ==> t.bitrate == s.bitrate)
  {
  }

  /** A step up is worth a whole round of windows. */
  lemma {:induction false} StepIsWorthARound(b: int, b': int, k: nat)
    requires b' >= b + 1
    ensures b' * k >= b * k + k
  {
    assert b' * k == b * k + k + (b' - b - 1) * k;
    assert (b' - b - 1) * k >= 0;
  }

  lemma {:induction false} CleanWindowProgresses(c: Config, s: State)
    requires Sane(c) && s.bitrate <= s.target && s.clean < c.cleanWindows
    ensures var t := Clean(c, s);
      && t.target == s.target && s.bitrate <= t.bitrate <= t.target && t.clean < c.cleanWindows
      && (s.bitrate == s.target ==> t.bitrate == t.target)
      && (s.bitrate < s.target ==> Progress(c, t) >= Progress(c, s) + 1)
      && (s.bitrate < s.target && s.clean + 1 >= c.cleanWindows ==> t.bitrate > s.bitrate)
  {
    CleanRoundRaises(c, s);
    var t := Clean(c, s);
    if s.bitrate < s.target && s.clean + 1 >= c.cleanWindows {
      StepIsWorthARound(s.bitrate, t.bitrate, c.cleanWindows);
    }
  }

  /** A clean run never lowers the bitrate, and every closed window brings it nearer to the ceiling. */
  lemma {:induction false} CleanRunProgresses(c: Config, s: State, times: seq<int>)
    requires Sane(c) && s.bitrate <= s.target && s.clean < c.cleanWindows
    ensures var t := CleanTicks(c, s, times);
      && t.target == s.target && t.bitrate <= t.target && t.clean < c.cleanWindows
      && (t.bitrate == t.target || Progress(c, t) >= Progress(c, s) + Closings(c, s, times))
    decreases |times|
  {
    if times == [] {
    } else {
      var n := |times| - 1;
      CleanRunProgresses(c, s, times[..n]);
      var u := CleanTicks(c, s, times[..n]);
      var u1 := u.(windowStart := Some(Start(u.windowStart, times[n])));
      CleanWindowProgresses(c, u1);
      assert Closes(c, u1, times[n]) == Closes(c, u, times[n]);
    }
  }

  /** That much progress is only possible on the ceiling. */
  lemma {:induction false} EnoughWindows(b: int, ceiling: int, start: int, k: int, windows: int, clean: int)
    requires 0 <= clean < k
    requires b * k + clean >= start * k + windows
    requires windows >= (ceiling - start) * k
    ensures b >= ceiling
  {
    assert (ceiling - start) * k == ceiling * k - start * k;
    assert (b + 1) * k == b * k + k;
    assert (b + 1) * k > ceiling * k;
    assert b + 1 <= ceiling ==> (b + 1) * k <= ceiling * k;
  }

  /** On the ceiling, the first tick the rate gate allows publishes the ceiling itself. */
  lemma {:induction false} CeilingIsPublished(c: Config, s: State, now: int)
    requires Sane(c) && s.bitrate == s.target && s.clean < c.cleanWindows
    requires now - s.lastPublish >= c.minReconfigureMs * 1000
    ensures var t := Tick(c, s, now, CLEAN); t.published == t.bitrate == s.target
  {
    CleanWindowProgresses(c, s.(windowStart := Some(Start(s.windowStart, now))));
  }

  /**
   On an all-clean run the bitrate equals the ceiling once enough windows have closed, and
   that exact value is published at the first tick the rate gate allows, whatever the delta.
   */
  lemma {:induction false} CleanRunConverges(c: Config, s: State, times: seq<int>, now: int)
    requires Sane(c) && s.bitrate <= s.target && s.clean < c.cleanWindows
    requires Closings(c, s, times) >= (s.target - s.bitrate) * c.cleanWindows
    ensures var t := CleanTicks(c, s, times);
      && t.bitrate == s.target
      && (now - t.lastPublish >= c.minReconfigureMs * 1000 ==> Tick(c, t, now, CLEAN).published == s.target)
  {
    CleanRunProgresses(c, s, times);
    var t := CleanTicks(c, s, times);
    if t.bitrate != t.target {
      EnoughWindows(t.bitrate, t.target, s.bitrate, c.cleanWindows, s.clean + Closings(c, s, times), t.clean);
    }
    if now - t.lastPublish >= c.minReconfigureMs * 1000 { CeilingIsPublished(c, t, now); }
  }

  // ---- lowering the ceiling ----

  /**
   When a new ceiling reaches the encoder at once. What the encoder has been told, or will
   be told by its next update, is the published value; after the call it is within the
   ceiling if and only if the adapted bitrate was above it, which forces a publication, or
   the published value was already within it.
   */
  lemma {:induction false} CeilingReachesTheEncoder(c: Config, target: Bps, events: seq<Event>, bps: Bps)
    requires Sane(c) && bps > 0
    ensures var s := Run(c, target, events).state; var t := SetTarget(c, s, bps);
      && t.target == bps && t.bitrate == Min(s.bitrate, bps)
      && (t.pending == 0 || t.pending == t.published)
      && (t.published <= bps <==> s.bitrate > bps || s.published <= bps)
      && (s.bitrate > bps ==> t.pending == t.published == bps && t.lastPublish == s.lastPublish)
  {
    EveryRunIsBounded(c, target, events);
  }

  const DEFAULTS := Config(800_000, 500, 2, 2, 0.85, 0.9, 1.1, 500, 0.1, Limits(100, 0.2), 50_000)

  const JAM := Verdict(true, 0)

  /** A sharer at 1 000 001 bit/s: the ceiling is raised and two clean windows pass. */
  function UnpublishedIncrease(): seq<Event> {
    [Target(3_000_000)] + [Ticked(1_000_000, CLEAN)] + [Ticked(1_500_000, CLEAN)] + [Ticked(2_000_000, CLEAN)]
  }

  /** Two congested windows follow. */
  function UnpublishedDecrease(): seq<Event> {
    UnpublishedIncrease() + [Ticked(2_500_000, JAM)] + [Ticked(3_000_000, JAM)]
  }

  lemma {:induction false} RunSnoc(c: Config, target: Bps, events: seq<Event>, e: Event)
    ensures Run(c, target, events + [e]) == Apply(c, Run(c, target, events), e)
  {
    assert (events + [e])[..|events|] == events;
  }

  lemma {:induction false} RoundUpIsTooSmallToPublish()
    ensures var s := State(3_000_000, 1_000_001, 0, 1, Some(1_500_000), 1_000_001, 0, 1_000_001);
      Tick(DEFAULTS, s, 2_000_000, CLEAN) == s.(bitrate := 1_100_001, clean := 0, windowStart := Some(2_000_000))
  {
    assert Scale(1_000_001, 1.1) == 1_100_001;
  }

  lemma {:induction false} RoundDownIsTooSmallToPublish()
    ensures var s := State(3_000_000, 1_100_001, 1, 0, Some(2_500_000), 1_000_001, 0, 1_000_001);
      Tick(DEFAULTS, s, 3_000_000, JAM) == s.(bitrate := 935_001, congested := 0, windowStart := Some(3_000_000))
  {
    assert Scale(1_100_001, 0.85) == 935_001;
  }

  /** Neither the rise nor the fall passes the delta gate: the encoder still has the first value. */
  lemma {:induction false} IncreaseStaysUnpublished()
    ensures Run(DEFAULTS, 1_000_001, UnpublishedIncrease()).state ==
      State(3_000_000, 1_100_001, 0, 0, Some(2_000_000), 1_000_001, 0, 1_000_001)
  {
    var c, t := DEFAULTS, 1_000_001;
    var e0: seq<Event> := [];
    var e1 := e0 + [Target(3_000_000)];
    var e2 := e1 + [Ticked(1_000_000, CLEAN)];
    var e3 := e2 + [Ticked(1_500_000, CLEAN)];
    RunSnoc(c, t, e0, Target(3_000_000));
    RunSnoc(c, t, e1, Ticked(1_000_000, CLEAN));
    RunSnoc(c, t, e2, Ticked(1_500_000, CLEAN));
    RunSnoc(c, t, e3, Ticked(2_000_000, CLEAN));
    RoundUpIsTooSmallToPublish();
    assert e1 == [Target(3_000_000)];
  }

  lemma {:induction false} DecreaseStaysUnpublished()
    ensures Run(DEFAULTS, 1_000_001, UnpublishedDecrease()).state ==
      State(3_000_000, 935_001, 0, 0, Some(3_000_000), 1_000_001, 0, 1_000_001)
  {
    var c, t := DEFAULTS, 1_000_001;
    IncreaseStaysUnpublished();
    RunSnoc(c, t, UnpublishedIncrease(), Ticked(2_500_000, JAM));
    RunSnoc(c, t, UnpublishedIncrease() + [Ticked(2_500_000, JAM)], Ticked(3_000_000, JAM));
    RoundDownIsTooSmallToPublish();
  }

  /**
   A lowered ceiling does not always take effect with the next update: here the adapted
   bitrate is already under the new ceiling but was never published, so the call publishes
   nothing and the encoder is left above the ceiling, ticks without a new window included.
   */
  lemma {:induction false} LoweredCeilingCanMissTheEncoder(now: int, v: Verdict)
    requires now < 3_500_000
    ensures var s := Run(DEFAULTS, 1_000_001, UnpublishedDecrease() + [Target(950_000)]).state;
      && s.target == 950_000 && s.published == 1_000_001 && s.pending == 1_000_001
      && Tick(DEFAULTS, s, now, v) == s
  {
    DecreaseStaysUnpublished();
    RunSnoc(DEFAULTS, 1_000_001, UnpublishedDecrease(), Target(950_000));
  }
}
