/**
 One evaluation window of the sharer's congestion control: what is counted while it is
 open, and how it is judged when it closes. The counters are a running summary of the
 events; the judgement is proved to be about the events themselves.
 */
module CongestionWindow {
  import opened Basics

  const MAX_U32: int := 4294967295

  type Bps = x: int | 0 <= x <= 4294967295

  /** `queueMs` is a standing queue, `dropRatio` a share of skipped frames, that count as congestion. */
  datatype Limits = Limits(queueMs: nat, dropRatio: real)

  /** What a window keeps. `least` is the smallest queueing delay sampled, in milliseconds. */
  datatype Window = Window(
    least: Option<nat>, admitted: nat, skipped: nat, lostFrames: nat, completed: nat, lostPackets: nat, sentPackets: nat)

  const EMPTY := Window(None, 0, 0, 0, 0, 0, 0)

  /** How a window went: judged congested or not, and the goodput measured in it. */
  datatype Verdict = Verdict(congested: bool, goodput: Bps)

  // ---- measuring ----

  /** Round trips of waiting added by loss. */
  function ExtraTrips(loss: real): (x: real)
    ensures 0.0 <= x <= 1.5
  {
    if loss * 30.0 < 0.0 then 0.0 else if loss * 30.0 > 1.5 then 1.5 else loss * 30.0
  }

  /** How long sent data normally stays unacknowledged: a round trip, up to two and a half under loss. */
  function InFlightUs(rtt: nat, loss: real): (r: nat)
    ensures rtt <= r && r as real <= rtt as real * 2.5
    ensures loss <= 0.0 ==> r == rtt
    ensures loss >= 0.05 ==> r == (rtt as real * 2.5).Floor
  {
    var wait := rtt as real * ExtraTrips(loss);
    assert 0.0 <= wait <= rtt as real * 1.5 by {
      ProductOfNonNegatives(rtt as real, ExtraTrips(loss));
      ProductOfNonNegatives(rtt as real, 1.5 - ExtraTrips(loss));
      assert rtt as real * (1.5 - ExtraTrips(loss)) == rtt as real * 1.5 - wait;
    }
    (rtt as real + wait).Floor
  }

  /** The time to drain `outstanding` at `bitrate`, less what is merely in flight. */
  function QueueDelayMs(outstanding: nat, bitrate: Bps, inFlight: nat): nat {
    if bitrate == 0 then 0
    else
      var delay := outstanding as real * 8000.0 / bitrate as real - inFlight as real / 1000.0;
      if delay <= 0.0 then 0 else if delay >= 4294967295.0 then 4294967295 else delay.Floor
  }

  function Goodput(completed: nat, elapsedUs: int): Bps {
    if elapsedUs <= 0 then 0
    else
      var bps := completed as real * 8.0 / (elapsedUs as real / 1000000.0);
      if bps < 0.0 then 0 else if bps >= 4294967295.0 then 4294967295 else bps.Floor
  }

  /** `d` is the queueing delay in whole milliseconds: what remains of the drain time beyond what is in flight. */
  ghost predicate IsQueueDelay(d: nat, outstanding: nat, bitrate: Bps, inFlight: nat) {
    var excess := 8_000_000 * outstanding - inFlight * bitrate;   // in thousandths of a bit-millisecond
    && (d > 0 ==> d * (1000 * bitrate) <= excess)
    && (d < MAX_U32 && bitrate > 0 ==> excess < (d + 1) * (1000 * bitrate))
    && (bitrate == 0 ==> d == 0)
    && d <= MAX_U32
  }

  lemma {:induction false} QueueDelayIsExact(outstanding: nat, bitrate: Bps, inFlight: nat)
    ensures IsQueueDelay(QueueDelayMs(outstanding, bitrate, inFlight), outstanding, bitrate, inFlight)
  {
    if bitrate > 0 {
      var excess := 8_000_000 * outstanding - inFlight * bitrate;
      var x := outstanding as real * 8000.0 / bitrate as real - inFlight as real / 1000.0;
      var d := QueueDelayMs(outstanding, bitrate, inFlight);
      DelayTimesRate(outstanding, bitrate, inFlight);
      assert d > 0 ==> d as real <= x;
      assert d < MAX_U32 ==> x < (d + 1) as real;
      SideOfQuotient(excess, 1000 * bitrate, x, d);
      SideOfQuotient(excess, 1000 * bitrate, x, d + 1);
    }
  }

  lemma {:induction false} DelayTimesRate(outstanding: nat, bitrate: nat, inFlight: nat)
    requires bitrate > 0
    ensures var x := outstanding as real * 8000.0 / bitrate as real - inFlight as real / 1000.0;
      x * (1000 * bitrate) as real == (8_000_000 * outstanding - inFlight * bitrate) as real
  {
    var b := bitrate as real;
    var drain, flight := outstanding as real * 8000.0 / b, inFlight as real / 1000.0;
    assert drain * b == outstanding as real * 8000.0;
    assert (drain - flight) * (1000.0 * b) == 1000.0 * (drain * b) - (1000.0 * flight) * b;
    assert 1000.0 * flight == inFlight as real;
    assert inFlight as real * b == (inFlight * bitrate) as real;
  }

  /** `g` is the bits acknowledged per second, in whole bits. */
  ghost predicate IsGoodput(g: Bps, completed: nat, elapsedUs: int) {
    && (elapsedUs <= 0 ==> g == 0)
    && (elapsedUs > 0 ==> g * elapsedUs <= 8_000_000 * completed)
    && (elapsedUs > 0 && g < MAX_U32 ==> 8_000_000 * completed < (g + 1) * elapsedUs)
  }

  lemma {:induction false} GoodputIsExact(completed: nat, elapsedUs: int)
    ensures IsGoodput(Goodput(completed, elapsedUs), completed, elapsedUs)
  {
    if elapsedUs > 0 {
      var x := completed as real * 8.0 / (elapsedUs as real / 1000000.0);
      RateTimesTime(completed, elapsedUs);
      var g := Goodput(completed, elapsedUs);
      RateIsNotNegative(completed as real * 8.0, elapsedUs as real / 1000000.0);
      assert g as real <= x && (g < MAX_U32 ==> x < (g + 1) as real);
      SideOfQuotient(8_000_000 * completed, elapsedUs, x, g);
      SideOfQuotient(8_000_000 * completed, elapsedUs, x, g + 1);
    }
  }

  lemma {:induction false} RateIsNotNegative(a: real, b: real)
    requires a >= 0.0 && b > 0.0
    ensures a / b >= 0.0
  {
  }

  lemma {:induction false} RateTimesTime(completed: nat, elapsedUs: nat)
    requires elapsedUs > 0
    ensures completed as real * 8.0 / (elapsedUs as real / 1000000.0) * elapsedUs as real == (8_000_000 * completed) as real
  {
    var s := elapsedUs as real / 1000000.0;
    var x := completed as real * 8.0 / s;
    assert x * s == completed as real * 8.0;
    assert x * (1000000.0 * s) == 1000000.0 * (x * s);
    assert 1000000.0 * s == elapsedUs as real;
  }

  function LossRatio(w: Window): real {
    if w.sentPackets > 0 then w.lostPackets as real / w.sentPackets as real else 0.0
  }

  function Sampled(w: Window, delayMs: nat): Window {
    w.(least := Some(if w.least.Some? then Min(w.least.value, delayMs) else delayMs))
  }

  // ---- judging ----

  /** Of the frames offered, more than the allowed share was skipped. */
  predicate TooManySkipped(l: Limits, skipped: nat, admitted: nat) {
    skipped + admitted > 0 && skipped as real > l.dropRatio * (skipped + admitted) as real
  }

  function Judge(l: Limits, w: Window, elapsedUs: int): Verdict {
    Verdict(
      || (w.least.Some? && w.least.value >= l.queueMs)
      || TooManySkipped(l, w.skipped, w.admitted)
      || w.lostFrames > 0,
      Goodput(w.completed, elapsedUs))
  }

  // ---- what the window was made of ----

  datatype Event =
    | Admitted
    | Skipped                 // an admission drop
    | LostFrame               // a failed send or an encoder drop
    | Completed(bytes: nat)
    | Packets(lost: nat, sent: nat)
    | Sample(delayMs: nat)    // one tick

  function Count(w: Window, e: Event): Window {
    match e
    case Admitted => w.(admitted := w.admitted + 1)
    case Skipped => w.(skipped := w.skipped + 1)
    case LostFrame => w.(lostFrames := w.lostFrames + 1)
    case Completed(bytes) => w.(completed := w.completed + bytes)
    case Packets(lost, sent) => w.(lostPackets := w.lostPackets + lost, sentPackets := w.sentPackets + sent)
    case Sample(d) => Sampled(w, d)
  }

  function After(events: seq<Event>): Window
    decreases |events|
  {
    if events == [] then EMPTY else Count(After(events[..|events| - 1]), events[|events| - 1])
  }

  /** How many of the events are `e`. */
  function HowMany(events: seq<Event>, e: Event): nat
    decreases |events|
  {
    if events == [] then 0
    else HowMany(events[..|events| - 1], e) + if events[|events| - 1] == e then 1 else 0
  }

  function CompletedBytes(events: seq<Event>): nat
    decreases |events|
  {
    if events == [] then 0
    else
      var e := events[|events| - 1];
      CompletedBytes(events[..|events| - 1]) + if e.Completed? then e.bytes else 0
  }

  function LostPackets(events: seq<Event>): nat
    decreases |events|
  {
    if events == [] then 0
    else
      var e := events[|events| - 1];
      LostPackets(events[..|events| - 1]) + if e.Packets? then e.lost else 0
  }

  function SentPackets(events: seq<Event>): nat
    decreases |events|
  {
    if events == [] then 0
    else
      var e := events[|events| - 1];
      SentPackets(events[..|events| - 1]) + if e.Packets? then e.sent else 0
  }

  ghost predicate Looked(events: seq<Event>) {
    exists i :: 0 <= i < |events| && events[i].Sample?
  }

  ghost predicate AllAtLeast(events: seq<Event>, ms: nat) {
    forall i :: 0 <= i < |events| && events[i].Sample? ==> events[i].delayMs >= ms
  }

  /** The queue was looked at and never found shorter than `ms`. */
  ghost predicate NeverDrained(events: seq<Event>, ms: nat) {
    Looked(events) && AllAtLeast(events, ms)
  }

  lemma {:induction false} SamplesSplit(before: seq<Event>, e: Event, ms: nat)
    ensures Looked(before + [e]) <==> Looked(before) || e.Sample?
    ensures AllAtLeast(before + [e], ms) <==> AllAtLeast(before, ms) && (e.Sample? ==> e.delayMs >= ms)
  {
    var events := before + [e];
    assert events[|before|] == e;
    assert forall i :: 0 <= i < |before| ==> events[i] == before[i];
  }

  lemma {:induction false} LeastIsStanding(events: seq<Event>, ms: nat)
    ensures After(events).least.Some? <==> Looked(events)
    ensures AllAtLeast(events, ms) <==> (After(events).least.Some? ==> After(events).least.value >= ms)
    decreases |events|
  {
    if events == [] {
    } else {
      var n := |events| - 1;
      LeastIsStanding(events[..n], ms);
      SamplesSplit(events[..n], events[n], ms);
      assert events[..n] + [events[n]] == events;
    }
  }

  lemma {:induction false} CountsAreExact(events: seq<Event>)
    ensures var w := After(events);
      && w.admitted == HowMany(events, Admitted)
      && w.skipped == HowMany(events, Skipped)
      && w.lostFrames == HowMany(events, LostFrame)
      && w.completed == CompletedBytes(events)
      && w.lostPackets == LostPackets(events) && w.sentPackets == SentPackets(events)
    decreases |events|
  {
    if events == [] {
    } else {
      CountsAreExact(events[..|events| - 1]);
    }
  }

  /**
   A window is judged congested exactly if its queue never drained, or the share of frames
   skipped by admission exceeds the ratio, or a frame was lost on the sender; the goodput is
   what was acknowledged per second.
   */
  lemma {:induction false} WindowIsJudgedByItsEvents(l: Limits, events: seq<Event>, elapsedUs: int)
    ensures var v := Judge(l, After(events), elapsedUs);
      && (v.congested <==>
            || NeverDrained(events, l.queueMs)
            || TooManySkipped(l, HowMany(events, Skipped), HowMany(events, Admitted))
            || HowMany(events, LostFrame) > 0)
      && IsGoodput(v.goodput, CompletedBytes(events), elapsedUs)
  {
    LeastIsStanding(events, l.queueMs);
    CountsAreExact(events);
    GoodputIsExact(CompletedBytes(events), elapsedUs);
  }

  /** The loss ratio of a window is the packets lost in it over those sent, 0 if none was. */
  lemma {:induction false} LossRatioIsOfTheWindow(events: seq<Event>)
    ensures var x := LossRatio(After(events));
      if SentPackets(events) == 0 then x == 0.0 else x * SentPackets(events) as real == LostPackets(events) as real
  {
    CountsAreExact(events);
  }
}
