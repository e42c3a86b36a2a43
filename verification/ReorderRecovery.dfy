/**
 How the reorder buffer recovers, after every run: a poll finds every gap that has lasted
 too long, an abort of a frame ahead is acted on, the keyframe it stays quiet for is really
 on its way, and a frame that repairs the chain is delivered at once.
 */
module ReorderRecovery {
  import opened Basics
  import opened SequenceNumbers
  import opened FrameReorder
  import opened ReorderHeld
  import opened ReorderSafety

  // ---- breaks are not missed ----

  lemma {:induction false} RunSnoc(c: Config, rtt: nat, events: seq<Event>, e: Event)
    ensures Run(c, rtt, events + [e]).state == Apply(c, Run(c, rtt, events).state, e).state
  {
    assert (events + [e])[..|events|] == events;
  }

  lemma {:induction false} SteadyBefore(events: seq<Event>, e: Event)
    requires SteadyClock(events + [e])
    ensures SteadyClock(events)
  {
    assert forall i :: 0 <= i < |events| ==> (events + [e])[i] == events[i];
  }

  /**
   No break is missed: under a clock that never goes back, after every run the next poll
   leaves the buffer in recovery exactly if it already was or some held frame has waited
   its hold out, and then the loss is reported unless a trusted keyframe is arriving.
   */
  lemma {:induction false} EveryPollFindsTheBreak(c: Config, rtt: nat, events: seq<Event>, now: int)
    requires SteadyClock(events + [Poll(now)])
    ensures var s := Run(c, rtt, events).state; var t := Run(c, rtt, events + [Poll(now)]).state;
      s.haveLast ==>
        && (t.awaiting <==> s.awaiting || exists h :: h in s.held && now - h.arrived >= HoldUs(c, s.rtt))
        && (t.awaiting ==> t.lossReported || KeyframeInFlight(c, t, now))
  {
    SteadyBefore(events, Poll(now));
    RunKeeps(c, rtt, events);
    GapTimerIsTheEarliestArrival(c, rtt, events);
    RunSnoc(c, rtt, events, Poll(now));
  }

  /** After every run, a keyframe ahead of the chain or the very frame owed is delivered at once and ends recovery. */
  lemma {:induction false} ResumesAtOnce(c: Config, rtt: nat, events: seq<Event>, f: Frame, now: int)
    ensures var s := Run(c, rtt, events).state; var r := OnFrame(c, s, f, now);
      (f.keyframe && (s.haveLast ==> Newer(f.seqNo, s.last))) || (s.haveLast && f.seqNo == Succ(s.last)) ==>
        && r.out != [] && r.out[0] == Deliver(f)
        && (r.state.awaiting ==> Succ(r.state.last) in r.state.aborted)
  {
    RunKeeps(c, rtt, events);
    var s := Run(c, rtt, events).state;
    if (f.keyframe && (s.haveLast ==> Newer(f.seqNo, s.last))) || (s.haveLast && f.seqNo == Succ(s.last)) {
      var kept := if !s.haveLast then s.(held := Rebase(KeepNewer(s.held, f.seqNo), f.seqNo), aborted := [])
                  else if f.seqNo == Succ(s.last) then s else s.(held := KeepNewer(s.held, f.seqNo));
      ResumeIsPrompt(c, kept, f, now);
    }
  }

  lemma {:induction false} ResumeIsPrompt(c: Config, s: State, f: Frame, now: int)
    ensures var r := Resume(c, s, f, now);
      r.out[0] == Deliver(f) && (r.state.awaiting ==> Succ(r.state.last) in r.state.aborted)
  {
    var t := Advance(s.(haveLast := true, awaiting := false, lossReported := false), f);
    ReleaseKeepsFlags(t);
  }

  lemma {:induction false} ReleaseKeepsFlags(s: State)
    ensures Release(s).state.awaiting == s.awaiting && Release(s).state.aborted == s.aborted
    decreases |s.held|
  {
    if s.held == [] || s.held[0].frame.seqNo != Succ(s.last) {
    } else {
      ReleaseKeepsFlags(Advance(s.(held := s.held[1..]), s.held[0].frame));
    }
  }

  // ---- aborts and keyframes in flight ----

  ghost predicate IsInFlight(s: State, q: Seq32) {
    s.inflight.Some? && s.inflight.value.seqNo == q
  }

  function WithoutKey(s: State, q: Seq32): State {
    if s.inflight.Some? && q == s.inflight.value.seqNo then s.(inflight := None) else s
  }

  /** The frame owed is gone: recovery is on; the loss is reported, unless it was or a keyframe is trusted to come. */
  ghost predicate OwedIsLost(c: Config, s: State, q: Seq32, now: int, r: Step) {
    && r.state == WithoutKey(s, q).(awaiting := true, lossReported := r.state.lossReported)
    && (r.state.lossReported <==>
          s.lossReported || IsInFlight(s, q) || (!s.awaiting && !KeyframeInFlight(c, WithoutKey(s, q), now)))
    && r.out == if r.state.lossReported && !s.lossReported then [Lost(Succ(s.last))] else []
  }

  /** The abort is remembered beside the others; a full memory forgets its oldest. */
  ghost predicate Remembered(aborted: seq<Seq32>, q: Seq32, after: seq<Seq32>) {
    forall a :: a in after <==>
      a == q || (a in aborted && !(q !in aborted && |aborted| >= MAX_ABORTED_TRACKED && a == aborted[0]))
  }

  /** A frame further ahead is gone: it is not held any more, or remembered; a keyframe counted on in vain is reported. */
  ghost predicate AheadIsLost(s: State, q: Seq32, r: Step) {
    && r.state == WithoutKey(s, q).(lossReported := r.state.lossReported, held := r.state.held,
                                    gapSince := r.state.gapSince, aborted := r.state.aborted)
    && (forall h :: h in r.state.held <==> h in s.held && h.frame.seqNo != q)
    && (if Holds(s.held, q) then r.state.aborted == s.aborted
        else r.state.held == s.held && Remembered(s.aborted, q, r.state.aborted))
    && (r.state.lossReported <==> s.lossReported || (IsInFlight(s, q) && s.awaiting))
    && r.out == if r.state.lossReported && !s.lossReported then [Lost(Succ(s.last))] else []
  }

  /** What the abort of frame `q` does, by where `q` is. */
  ghost predicate AbortHeeded(c: Config, s: State, q: Seq32, now: int, r: Step) {
    if !s.haveLast || !Newer(q, s.last) then r == Step(WithoutKey(s, q), [])
    else if q == Succ(s.last) then OwedIsLost(c, s, q, now, r)
    else AheadIsLost(s, q, r)
  }

  lemma {:induction false} AbortOwedIsHeeded(c: Config, s: State, q: Seq32, now: int)
    requires Inv(c, s) && s.haveLast
    ensures OwedIsLost(c, s, q, now, AbortOwed(c, WithoutKey(s, q), IsInFlight(s, q), now))
  {
  }

  lemma {:induction false} RememberAbortFacts(s: State, q: Seq32)
    requires Ordered(s.held, s.last) && forall i, j :: 0 <= i < j < |s.aborted| ==> s.aborted[i] != s.aborted[j]
    ensures var t := RememberAbort(s, q);
      && t == s.(held := t.held, gapSince := t.gapSince, aborted := t.aborted)
      && (forall h :: h in t.held <==> h in s.held && h.frame.seqNo != q)
      && (if Holds(s.held, q) then t.aborted == s.aborted else t.held == s.held && Remembered(s.aborted, q, t.aborted))
  {
    if Holds(s.held, q) {
      Distinct(s.held, s.last);
      WithoutDropsIt(s.held, q);
      WithoutFacts(s.held, q);
      LeftFacts(Without(s.held, q), s.held, s.last);
      NotHeldIsNotThere(Without(s.held, q), q);
    } else {
      NotHeldIsNotThere(s.held, q);
      if q !in s.aborted { RoomForOneMore(s.aborted, q); }
    }
  }

  lemma {:induction false} NotHeldIsNotThere(held: seq<Held>, q: Seq32)
    requires !Holds(held, q)
    ensures forall h :: h in held ==> h.frame.seqNo != q
  {
    forall h | h in held
      ensures h.frame.seqNo != q
    {
      var i :| 0 <= i < |held| && held[i] == h;
    }
  }

  lemma {:induction false} RoomForOneMore(aborted: seq<Seq32>, q: Seq32)
    requires q !in aborted && forall i, j :: 0 <= i < j < |aborted| ==> aborted[i] != aborted[j]
    ensures Remembered(aborted, q, (if |aborted| >= MAX_ABORTED_TRACKED then aborted[1..] else aborted) + [q])
  {
    if |aborted| >= MAX_ABORTED_TRACKED {
      assert aborted == [aborted[0]] + aborted[1..];
      assert forall i :: 0 <= i < |aborted[1..]| ==> aborted[1..][i] == aborted[i + 1];
    }
  }

  lemma {:induction false} AbortAheadIsHeeded(c: Config, s: State, q: Seq32)
    requires Inv(c, s) && s.haveLast
    ensures AheadIsLost(s, q, AbortAhead(WithoutKey(s, q), q, IsInFlight(s, q)))
  {
    var t := WithoutKey(s, q);
    var r := if IsInFlight(s, q) && t.awaiting then ReportLoss(t) else Step(t, []);
    RememberAbortFacts(r.state, q);
  }

  lemma {:induction false} AbortIsHeeded(c: Config, s: State, q: Seq32, now: int)
    requires Inv(c, s)
    ensures AbortHeeded(c, s, q, now, OnAborted(c, s, q, now))
  {
    if s.haveLast && q == Succ(s.last) {
      AbortOwedIsHeeded(c, s, q, now);
    } else if s.haveLast && Newer(q, s.last) {
      AbortAheadIsHeeded(c, s, q);
    }
  }

  lemma {:induction false} WithoutDropsIt(held: seq<Held>, q: Seq32)
    requires forall i, j :: 0 <= i < j < |held| ==> held[i].frame.seqNo != held[j].frame.seqNo
    ensures !Holds(Without(held, q), q)
    decreases |held|
  {
    if held == [] {
    } else {
      var rest := held[1..];
      assert forall i :: 0 <= i < |rest| ==> rest[i] == held[i + 1];
      WithoutDropsIt(rest, q);
    }
  }

  /**
   After every run, an abort does exactly this. Of the frame owed it starts recovery, of the
   keyframe counted on it ends the silence; a frame further ahead is not held any more, or
   its loss is remembered; of a frame behind, or before the first keyframe, nothing more
   than a keyframe in flight is forgotten.
   */
  lemma {:induction false} EveryAbortIsHeeded(c: Config, rtt: nat, events: seq<Event>, q: Seq32, now: int)
    ensures var s := Run(c, rtt, events).state; AbortHeeded(c, s, q, now, OnAborted(c, s, q, now))
  {
    RunKeeps(c, rtt, events);
    AbortIsHeeded(c, Run(c, rtt, events).state, q, now);
  }

  /** Event `j` started the stream of keyframe `k`, and no later event aborted it. */
  ghost predicate StartedAt(events: seq<Event>, k: InFlight, j: nat) {
    && j < |events| && events[j] == Started(k.seqNo, true, k.since)
    && forall i :: j < i < |events| ==> !(events[i].Aborted? && events[i].seqNo == k.seqNo)
  }

  /** No call but `on_frame_started` can set the keyframe in flight, and an abort of it clears it. */
  lemma {:induction false} InFlightMoves(c: Config, s: State, e: Event)
    ensures var t := Apply(c, s, e).state;
      t.inflight.Some? ==>
        || (e.Started? && e.keyframe && t.inflight.value == InFlight(e.seqNo, e.now))
        || (t.inflight == s.inflight && !(e.Aborted? && e.seqNo == t.inflight.value.seqNo))
  {
    if e.Arrived? { OnFrameInFlight(c, s, e.frame, e.now); }
  }

  lemma {:induction false} OnFrameInFlight(c: Config, s: State, f: Frame, now: int)
    ensures OnFrame(c, s, f, now).state.inflight in {None, s.inflight}
  {
    if !s.haveLast && f.keyframe {
      ResumeInFlight(c, s.(held := Rebase(KeepNewer(s.held, f.seqNo), f.seqNo), aborted := []), f, now);
    } else if s.haveLast && f.seqNo == Succ(s.last) {
      ResumeInFlight(c, s, f, now);
    } else if f.keyframe {
      ResumeInFlight(c, s.(held := KeepNewer(s.held, f.seqNo)), f, now);
    }
  }

  lemma {:induction false} ResumeInFlight(c: Config, s: State, f: Frame, now: int)
    ensures Resume(c, s, f, now).state.inflight in {None, s.inflight}
  {
    ReleaseInFlight(Advance(s.(haveLast := true, awaiting := false, lossReported := false), f));
  }

  lemma {:induction false} ReleaseInFlight(s: State)
    ensures Release(s).state.inflight in {None, s.inflight}
    decreases |s.held|
  {
    if s.held == [] || s.held[0].frame.seqNo != Succ(s.last) {
    } else {
      ReleaseInFlight(Advance(s.(held := s.held[1..]), s.held[0].frame));
    }
  }

  /** What is remembered as in flight, if anything, did start and was not aborted since. */
  ghost predicate WasStarted(events: seq<Event>, inflight: Option<InFlight>) {
    inflight.Some? ==> exists j :: StartedAt(events, inflight.value, j)
  }

  lemma {:induction false} StartExtends(c: Config, s: State, before: seq<Event>, e: Event)
    requires WasStarted(before, s.inflight)
    ensures WasStarted(before + [e], Apply(c, s, e).state.inflight)
  {
    InFlightMoves(c, s, e);
    var t := Apply(c, s, e).state.inflight;
    if t.Some? {
      if e.Started? && e.keyframe && t.value == InFlight(e.seqNo, e.now) {
        assert StartedAt(before + [e], t.value, |before|);
      } else {
        var j :| StartedAt(before, s.inflight.value, j);
        assert StartedAt(before + [e], t.value, j);
      }
    }
  }

  lemma {:induction false} RunWasStarted(c: Config, rtt: nat, events: seq<Event>)
    ensures WasStarted(events, Run(c, rtt, events).state.inflight)
    decreases |events|
  {
    if events == [] {
    } else {
      var n := |events| - 1;
      var before, e := events[..n], events[n];
      assert before + [e] == events;
      RunWasStarted(c, rtt, before);
      StartExtends(c, Run(c, rtt, before).state, before, e);
      RunSnoc(c, rtt, before, e);
    }
  }

  /**
   After every run, the keyframe the buffer stays quiet for is one whose stream did start,
   at the time remembered, was not aborted since, and lies ahead of everything delivered.
   */
  lemma {:induction false} KeyframeInFlightIsReal(c: Config, rtt: nat, events: seq<Event>)
    ensures var s := Run(c, rtt, events).state;
      && WasStarted(events, s.inflight)
      && (s.haveLast && s.inflight.Some? ==> Newer(s.inflight.value.seqNo, s.last))
  {
    RunWasStarted(c, rtt, events);
    RunKeeps(c, rtt, events);
  }

  // ---- polls, starts and the times they go by ----

  /** Before the first keyframe a poll drops exactly the deltas held for the hold, and says nothing. */
  ghost predicate StartupPolled(c: Config, s: State, now: int, r: Step) {
    && r.out == []
    && r.state == s.(held := r.state.held, gapSince := r.state.gapSince)
    && Left(r.state.held, s.held)
    && (forall h :: h in r.state.held <==> h in s.held && now - h.arrived < HoldUs(c, s.rtt))
  }

  /** After it a poll holds on to everything, and reports a break once, unless a keyframe is trusted to come. */
  ghost predicate AnchoredPolled(c: Config, s: State, now: int, r: Step) {
    && r.state == s.(awaiting := r.state.awaiting, lossReported := r.state.lossReported)
    && (r.state.lossReported <==> s.lossReported || (r.state.awaiting && !KeyframeInFlight(c, s, now)))
    && r.out == if r.state.lossReported && !s.lossReported then [Lost(Succ(s.last))] else []
  }

  lemma {:induction false} PollIsAccounted(c: Config, s: State, now: int)
    requires Inv(c, s)
    ensures var r := OnPoll(c, s, now);
      if s.haveLast then AnchoredPolled(c, s, now, r) else StartupPolled(c, s, now, r)
  {
    KeepFreshFacts(s.held, now, HoldUs(c, s.rtt));
  }

  /** After every run, that is all a poll does. */
  lemma {:induction false} EveryPollIsAccountedFor(c: Config, rtt: nat, events: seq<Event>, now: int)
    ensures var s := Run(c, rtt, events).state; var r := OnPoll(c, s, now);
      if s.haveLast then AnchoredPolled(c, s, now, r) else StartupPolled(c, s, now, r)
  {
    RunKeeps(c, rtt, events);
    PollIsAccounted(c, Run(c, rtt, events).state, now);
  }

  /** A started keyframe that can repair the chain is counted on, unless one no older already is; nothing else changes. */
  lemma {:induction false} EveryStartIsRemembered(c: Config, rtt: nat, events: seq<Event>, q: Seq32, keyframe: bool, now: int)
    ensures var s := Run(c, rtt, events).state; var t := Run(c, rtt, events + [Started(q, keyframe, now)]).state;
      && t == s.(inflight := t.inflight)
      && (if !keyframe || (s.haveLast && !Newer(q, s.last)) then t.inflight == s.inflight
          else if s.inflight.Some? && !Newer(q, s.inflight.value.seqNo) then t.inflight == s.inflight
          else t.inflight == Some(InFlight(q, now)))
  {
    RunSnoc(c, rtt, events, Started(q, keyframe, now));
  }

  /** What the round-trip time asks the hold to be. */
  function Wanted(c: Config, rtt: nat): int { rtt * c.rttHoldFactor + c.holdExtraMs * 1000 }

  /** The hold is what the round-trip time asks for, within its limits, and the lower limit without a measurement. */
  lemma {:induction false} HoldFollowsTheRtt(c: Config, rtt: nat)
    requires c.minHoldMs <= c.maxHoldMs
    ensures c.minHoldMs * 1000 <= HoldUs(c, rtt) <= c.maxHoldMs * 1000
    ensures rtt == 0 ==> HoldUs(c, rtt) == c.minHoldMs * 1000
    ensures rtt > 0 && Wanted(c, rtt) <= c.minHoldMs * 1000 ==> HoldUs(c, rtt) == c.minHoldMs * 1000
    ensures rtt > 0 && Wanted(c, rtt) >= c.maxHoldMs * 1000 ==> HoldUs(c, rtt) == c.maxHoldMs * 1000
    ensures rtt > 0 && c.minHoldMs * 1000 <= Wanted(c, rtt) <= c.maxHoldMs * 1000 ==> HoldUs(c, rtt) == Wanted(c, rtt)
  {
  }

  lemma {:induction false} LongerTripsHoldLonger(c: Config, rtt: nat, longer: nat)
    requires rtt <= longer && c.minHoldMs <= c.maxHoldMs
    ensures HoldUs(c, rtt) <= HoldUs(c, longer)
  {
    TimesGrows(c.rttHoldFactor, rtt, longer);
  }

  lemma {:induction false} TimesGrows(k: nat, a: nat, b: nat)
    requires a <= b
    ensures a * k <= b * k
  {
    assert b * k == a * k + (b - a) * k;
    assert (b - a) * k >= 0;
  }

  /** A keyframe in flight is given up exactly when it has been arriving for two seconds and for four holds. */
  lemma {:induction false} TrustRunsOut(c: Config, s: State, now: int)
    requires s.inflight.Some?
    ensures var elapsed := now - s.inflight.value.since;
      !KeyframeInFlight(c, s, now) <==> elapsed >= 2_000_000 && elapsed >= 4 * HoldUs(c, s.rtt)
  {
  }
}
