/**
 The viewer's reorder buffer, stated without its data structure: the held frames are a
 plain sequence ordered by wrap-safe distance from the newest delivered frame. There are
 no map keys, no running byte count and no re-keying here; `ReorderBuffer` has those and
 is proved to do exactly what these functions say.
 */
module FrameReorder {
  import opened Basics
  import opened SequenceNumbers

  datatype Frame = Frame(seqNo: Seq32, keyframe: bool, data: seq<Byte>)

  datatype Held = Held(frame: Frame, arrived: int)

  datatype Config = Config(
    minHoldMs: nat, maxHoldMs: nat, rttHoldFactor: nat, holdExtraMs: nat,
    maxHeldFrames: nat, maxBytes: nat)

  /** What the constructor makes of the configuration it is given. */
  function Normalize(c: Config): (r: Config)
    ensures r.maxHeldFrames >= 1 && r.minHoldMs <= r.maxHoldMs
    ensures c.maxHeldFrames >= 1 && c.minHoldMs <= c.maxHoldMs ==> r == c
  {
    c.(maxHeldFrames := if c.maxHeldFrames == 0 then 1 else c.maxHeldFrames,
       maxHoldMs := if c.maxHoldMs < c.minHoldMs then c.minHoldMs else c.maxHoldMs)
  }

  const MAX_ABORTED_TRACKED: nat := 64

  /** A keyframe whose stream has started and not completed. */
  datatype InFlight = InFlight(seqNo: Seq32, since: int)

  datatype State = State(
    haveLast: bool,
    awaiting: bool,
    lossReported: bool,
    last: Seq32,
    held: seq<Held>,
    gapSince: int,
    inflight: Option<InFlight>,
    aborted: seq<Seq32>,
    rtt: nat)

  /** One callback made by the buffer. */
  datatype Output = Deliver(frame: Frame) | Lost(first: Seq32)

  datatype Step = Step(state: State, out: seq<Output>)

  /** Everything the owner can tell the buffer between two resets. */
  datatype Event =
    | Arrived(frame: Frame, now: int)
    | Started(seqNo: Seq32, keyframe: bool, now: int)
    | Aborted(seqNo: Seq32, now: int)
    | Poll(now: int)
    | SetRtt(rtt: nat)

  function Fresh(rtt: nat): State {
    State(false, true, false, 0, [], 0, None, [], rtt)
  }

  // ---- timing ----

  function HoldUs(c: Config, rtt: nat): int {
    var floor := c.minHoldMs * 1000;
    var wanted := if rtt > 0 then Max(floor, rtt * c.rttHoldFactor + c.holdExtraMs * 1000) else floor;
    Min(wanted, c.maxHoldMs * 1000)
  }

  predicate KeyframeInFlight(c: Config, s: State, now: int) {
    s.inflight.Some? && now - s.inflight.value.since < Max(4 * HoldUs(c, s.rtt), 2_000_000)
  }

  // ---- the held frames ----

  function Bytes(held: seq<Held>): nat {
    if held == [] then 0 else |held[0].frame.data| + Bytes(held[1..])
  }

  /** The earliest arrival, scanned in order with 0 standing for "none yet". */
  function EarliestFrom(held: seq<Held>, best: int): int
    decreases |held|
  {
    if held == [] then best
    else EarliestFrom(held[1..], if best == 0 || held[0].arrived < best then held[0].arrived else best)
  }

  function Earliest(held: seq<Held>): int { EarliestFrom(held, 0) }

  predicate Holds(held: seq<Held>, q: Seq32) {
    exists i :: 0 <= i < |held| && held[i].frame.seqNo == q
  }

  /** Ordered insertion by distance from `base`; a frame already held is kept. */
  function Place(held: seq<Held>, base: Seq32, h: Held): (r: seq<Held>)
    decreases |held|
  {
    if held == [] then [h]
    else
      var d := Distance(h.frame.seqNo, base);
      var d0 := Distance(held[0].frame.seqNo, base);
      if d < d0 then [h] + held
      else if d == d0 then held
      else [held[0]] + Place(held[1..], base, h)
  }

  /** The same frames, ordered by distance from `base`. */
  function Rebase(held: seq<Held>, base: Seq32): seq<Held>
    decreases |held|
  {
    if held == [] then [] else Place(Rebase(held[..|held| - 1], base), base, held[|held| - 1])
  }

  function KeepNewer(held: seq<Held>, q: Seq32): seq<Held>
    decreases |held|
  {
    if held == [] then []
    else if Newer(held[0].frame.seqNo, q) then [held[0]] + KeepNewer(held[1..], q)
    else KeepNewer(held[1..], q)
  }

  function KeepFresh(held: seq<Held>, now: int, hold: int): seq<Held>
    decreases |held|
  {
    if held == [] then []
    else if now - held[0].arrived >= hold then KeepFresh(held[1..], now, hold)
    else [held[0]] + KeepFresh(held[1..], now, hold)
  }

  function Without(held: seq<Held>, q: Seq32): seq<Held>
    decreases |held|
  {
    if held == [] then []
    else if held[0].frame.seqNo == q then held[1..]
    else [held[0]] + Without(held[1..], q)
  }

  predicate OverBounds(c: Config, held: seq<Held>) {
    |held| > c.maxHeldFrames || Bytes(held) > c.maxBytes
  }

  /** Drops the newest frames of an anchored buffer, the oldest of an unanchored one. */
  function Bound(c: Config, held: seq<Held>, anchored: bool): seq<Held>
    decreases |held|
  {
    if !OverBounds(c, held) || held == [] then held
    else if anchored then Bound(c, held[..|held| - 1], anchored)
    else Bound(c, held[1..], anchored)
  }

  function KeepAhead(aborted: seq<Seq32>, last: Seq32): seq<Seq32>
    decreases |aborted|
  {
    if aborted == [] then []
    else if Newer(aborted[0], last) then [aborted[0]] + KeepAhead(aborted[1..], last)
    else KeepAhead(aborted[1..], last)
  }

  // ---- recovery ----

  function ReportLoss(s: State): Step {
    if s.lossReported || !s.awaiting then Step(s, [])
    else Step(s.(lossReported := true), [Lost(Succ(s.last))])
  }

  function RequireKeyframe(c: Config, s: State, now: int): Step {
    if s.awaiting then Step(s, [])
    else
      var s1 := s.(awaiting := true, lossReported := false);
      if KeyframeInFlight(c, s1, now) then Step(s1, []) else ReportLoss(s1)
  }

  // ---- delivery ----

  function ForgetThrough(inflight: Option<InFlight>, q: Seq32): Option<InFlight> {
    if inflight.Some? && !Newer(inflight.value.seqNo, q) then None else inflight
  }

  /** The newest delivered frame is now `f`. */
  function Advance(s: State, f: Frame): State {
    s.(last := f.seqNo, inflight := ForgetThrough(s.inflight, f.seqNo))
  }

  /** Delivers held frames for as long as the first of them is the one owed. */
  function Release(s: State): Step
    decreases |s.held|
  {
    if s.held == [] || s.held[0].frame.seqNo != Succ(s.last) then Step(s, [])
    else
      var f := s.held[0].frame;
      var r := Release(Advance(s.(held := s.held[1..]), f));
      Step(r.state, [Deliver(f)] + r.out)
  }

  function Settle(c: Config, s: State, now: int): Step {
    var s1 := s.(gapSince := Earliest(s.held), aborted := KeepAhead(s.aborted, s.last));
    if Succ(s1.last) in s1.aborted then RequireKeyframe(c, s1, now) else Step(s1, [])
  }

  function Drain(c: Config, s: State, now: int): Step {
    var r := Release(s);
    var t := Settle(c, r.state, now);
    Step(t.state, r.out + t.out)
  }

  /** Delivers `f` at once, then whatever held frames it releases. */
  function Resume(c: Config, s: State, f: Frame, now: int): Step {
    var r := Drain(c, Advance(s.(haveLast := true, awaiting := false, lossReported := false), f), now);
    Step(r.state, [Deliver(f)] + r.out)
  }

  // ---- the entry points ----

  function OnFrame(c: Config, s: State, f: Frame, now: int): Step {
    if s.haveLast && !Newer(f.seqNo, s.last) then Step(s, [])
    else if !s.haveLast then
      if !f.keyframe then Step(HoldBeforeKeyframe(c, s, f, now), [])
      else Resume(c, s.(held := Rebase(KeepNewer(s.held, f.seqNo), f.seqNo), aborted := []), f, now)
    else if f.seqNo == Succ(s.last) then Resume(c, s, f, now)
    else if f.keyframe then Resume(c, s.(held := KeepNewer(s.held, f.seqNo)), f, now)
    else HoldBehindGap(c, s, f, now)
  }

  function HoldBeforeKeyframe(c: Config, s: State, f: Frame, now: int): State {
    var base := if s.held == [] then f.seqNo else s.last;
    if Holds(s.held, f.seqNo) then s
    else
      var kept := Bound(c, Place(s.held, base, Held(f, now)), false);
      s.(last := base, held := kept, gapSince := Earliest(kept))
  }

  function HoldBehindGap(c: Config, s: State, f: Frame, now: int): Step {
    if Holds(s.held, f.seqNo) then Step(s, [])
    else Checked(c, Placed(s, f, now), now)
  }

  /** The state right after a delta has been put behind the gap, bounds not yet enforced. */
  function Placed(s: State, f: Frame, now: int): State {
    s.(held := Place(s.held, s.last, Held(f, now)), gapSince := if s.held == [] then now else s.gapSince)
  }

  /** Too much held asks for a keyframe and makes room; so does a known abort of the frame owed. */
  function Checked(c: Config, s: State, now: int): Step {
    if OverBounds(c, s.held) then
      var r := RequireKeyframe(c, s, now);
      var kept := Bound(c, s.held, true);
      Step(r.state.(held := kept, gapSince := Earliest(kept)), r.out)
    else if Succ(s.last) in s.aborted then RequireKeyframe(c, s, now)
    else Step(s, [])
  }

  function OnStarted(s: State, q: Seq32, keyframe: bool, now: int): State {
    if !keyframe || (s.haveLast && !Newer(q, s.last)) then s
    else if s.inflight.None? || Newer(q, s.inflight.value.seqNo) then s.(inflight := Some(InFlight(q, now)))
    else s
  }

  function OnAborted(c: Config, s: State, q: Seq32, now: int): Step {
    var lostKey := s.inflight.Some? && q == s.inflight.value.seqNo;
    var s1 := if lostKey then s.(inflight := None) else s;
    if !s1.haveLast then Step(s1, [])
    else if q == Succ(s1.last) then AbortOwed(c, s1, lostKey, now)
    else if !Newer(q, s1.last) then Step(s1, [])
    else AbortAhead(s1, q, lostKey)
  }

  /** The frame owed is gone: no successor can be decoded without a new keyframe. */
  function AbortOwed(c: Config, s: State, lostKey: bool, now: int): Step {
    var r := RequireKeyframe(c, s, now);
    if lostKey then
      var r2 := ReportLoss(r.state);
      Step(r2.state, r.out + r2.out)
    else r
  }

  function AbortAhead(s: State, q: Seq32, lostKey: bool): Step {
    var r := if lostKey && s.awaiting then ReportLoss(s) else Step(s, []);
    Step(RememberAbort(r.state, q), r.out)
  }

  function RememberAbort(s: State, q: Seq32): State {
    if Holds(s.held, q) then
      var kept := Without(s.held, q);
      s.(held := kept, gapSince := Earliest(kept))
    else if q in s.aborted then s
    else s.(aborted := (if |s.aborted| >= MAX_ABORTED_TRACKED then s.aborted[1..] else s.aborted) + [q])
  }

  function OnPoll(c: Config, s: State, now: int): Step {
    var hold := HoldUs(c, s.rtt);
    if !s.haveLast then
      var kept := KeepFresh(s.held, now, hold);
      Step(s.(held := kept, gapSince := Earliest(kept)), [])
    else if s.awaiting then
      if !s.lossReported && !KeyframeInFlight(c, s, now) then ReportLoss(s) else Step(s, [])
    else if s.held != [] && now - s.gapSince >= hold then RequireKeyframe(c, s, now)
    else Step(s, [])
  }

  function Apply(c: Config, s: State, e: Event): Step {
    match e
    case Arrived(f, now) => OnFrame(c, s, f, now)
    case Started(q, k, now) => Step(OnStarted(s, q, k, now), [])
    case Aborted(q, now) => OnAborted(c, s, q, now)
    case Poll(now) => OnPoll(c, s, now)
    case SetRtt(rtt) => Step(s.(rtt := rtt), [])
  }

  /** A whole run from a reset buffer: the state reached and every callback made. */
  function Run(c: Config, rtt: nat, events: seq<Event>): Step
    decreases |events|
  {
    if events == [] then Step(Fresh(rtt), [])
    else
      var before := Run(c, rtt, events[..|events| - 1]);
      var r := Apply(c, before.state, events[|events| - 1]);
      Step(r.state, before.out + r.out)
  }
}
