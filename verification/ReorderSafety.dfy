/**
 What holds of every run of the reorder buffer, whatever arrives, starts, is aborted or
 times out, in any order and across the 32-bit wrap: the frames handed to the decoder are
 decodable in the order given, and a broken chain is reported exactly once.
 */
module ReorderSafety {
  import opened Basics
  import opened SequenceNumbers
  import opened FrameReorder
  import opened ReorderHeld

  // ---- what the callbacks must look like ----

  function Delivered(trace: seq<Output>): (d: seq<Frame>)
    decreases |trace|
  {
    if trace == [] then []
    else
      var o := trace[|trace| - 1];
      Delivered(trace[..|trace| - 1]) + if o.Deliver? then [o.frame] else []
  }

  /** Frame `i` can be decoded after the frames before it. */
  ghost predicate DecodableAt(d: seq<Frame>, i: int)
    requires 0 <= i < |d|
  {
    if i == 0 then d[i].keyframe
    else Newer(d[i].seqNo, d[i - 1].seqNo) && (d[i].keyframe || d[i].seqNo == Succ(d[i - 1].seqNo))
  }

  /** A decoder fed `d` never lacks a reference and never goes back. */
  ghost predicate DecodeSafe(d: seq<Frame>) {
    forall i :: 0 <= i < |d| ==> DecodableAt(d, i)
  }

  ghost predicate LossAt(trace: seq<Output>, i: int)
    requires 0 <= i < |trace|
  {
    trace[i].Lost? ==> i > 0 && trace[i - 1].Deliver? && trace[i].first == Succ(trace[i - 1].frame.seqNo)
  }

  /**
   A loss report comes straight after a delivery and names its successor: so never before
   the first delivery, and never twice for one break.
   */
  ghost predicate LossSafe(trace: seq<Output>) {
    forall i :: 0 <= i < |trace| ==> LossAt(trace, i)
  }

  /** The state remembers the end of the trace. */
  ghost predicate Linked(s: State, trace: seq<Output>) {
    && DecodeSafe(Delivered(trace))
    && LossSafe(trace)
    && (s.haveLast <==> Delivered(trace) != [])
    && (s.haveLast ==> Delivered(trace)[|Delivered(trace)| - 1].seqNo == s.last)
    && (s.lossReported <==> trace != [] && trace[|trace| - 1].Lost?)
  }

  // ---- the invariant between calls ----

  /** True in the middle of a drain too, where the frame owed may be held (`nearest` is 1). */
  ghost predicate Shape(s: State, nearest: int) {
    && Ordered(s.held, s.last)
    && (forall h :: h in s.held ==> !h.frame.keyframe)
    && (s.haveLast ==> forall h :: h in s.held ==> Distance(h.frame.seqNo, s.last) >= nearest)
    && (s.haveLast && s.inflight.Some? ==> Newer(s.inflight.value.seqNo, s.last))
  }

  ghost predicate Recovery(s: State) {
    && (s.lossReported ==> s.awaiting)
    && (!s.haveLast ==> s.awaiting && !s.lossReported && s.aborted == [])
    && |s.aborted| <= MAX_ABORTED_TRACKED
    && (forall i, j :: 0 <= i < j < |s.aborted| ==> s.aborted[i] != s.aborted[j])
  }

  /** Remembered aborts lie ahead, and one of the frame owed means recovery is under way. */
  ghost predicate AbortsAhead(s: State) {
    && (s.haveLast ==> forall a :: a in s.aborted ==> Newer(a, s.last))
    && (s.haveLast && Succ(s.last) in s.aborted ==> s.awaiting)
  }

  ghost predicate GapTimed(s: State) {
    if s.held == [] then s.gapSince == 0 else exists h :: h in s.held && h.arrived == s.gapSince
  }

  ghost predicate Inv(c: Config, s: State) {
    Shape(s, 2) && Recovery(s) && AbortsAhead(s) && GapTimed(s) && !OverBounds(c, s.held)
  }

  // ---- extending the trace ----

  lemma {:induction false} Regroup(a: seq<Output>, b: seq<Output>, c: seq<Output>)
    ensures a + b + c == a + (b + c)
  {
  }

  lemma {:induction false} LinkDeliver(s: State, t: State, trace: seq<Output>, f: Frame)
    requires Linked(s, trace)
    requires t.haveLast && t.last == f.seqNo && !t.lossReported
    requires s.haveLast ==> Newer(f.seqNo, s.last) && (f.keyframe || f.seqNo == Succ(s.last))
    requires !s.haveLast ==> f.keyframe
    ensures Linked(t, trace + [Deliver(f)])
  {
    var after := trace + [Deliver(f)];
    assert after[..|after| - 1] == trace;
    var d, d1 := Delivered(trace), Delivered(after);
    assert d1 == d + [f];
    forall i | 0 <= i < |d1|
      ensures DecodableAt(d1, i)
    {
      if i < |d| { assert DecodableAt(d, i); }
    }
    LossExtends(trace, Deliver(f));
  }

  lemma {:induction false} LossExtends(trace: seq<Output>, o: Output)
    requires LossSafe(trace)
    requires LossAt(trace + [o], |trace|)
    ensures LossSafe(trace + [o])
  {
    forall i | 0 <= i < |trace| + 1
      ensures LossAt(trace + [o], i)
    {
      if i < |trace| { assert LossAt(trace, i); }
    }
  }

  lemma {:induction false} LinkLost(s: State, t: State, trace: seq<Output>)
    requires Linked(s, trace)
    requires s.haveLast && !s.lossReported
    requires t.haveLast && t.last == s.last && t.lossReported
    ensures Linked(t, trace + [Lost(Succ(s.last))])
  {
    var after := trace + [Lost(Succ(s.last))];
    assert after[..|after| - 1] == trace;
    assert Delivered(after) == Delivered(trace);
    assert Delivered(trace)[|Delivered(trace)| - 1] == trace[|trace| - 1].frame;
    LossExtends(trace, Lost(Succ(s.last)));
  }

  lemma {:induction false} ReportLossKeeps(s: State, trace: seq<Output>)
    requires Linked(s, trace) && s.haveLast
    ensures Linked(ReportLoss(s).state, trace + ReportLoss(s).out)
    ensures ReportLoss(s).state == s.(lossReported := ReportLoss(s).state.lossReported)
    ensures s.lossReported ==> ReportLoss(s).state.lossReported
    ensures ReportLoss(s).state.lossReported ==> s.awaiting || s.lossReported
  {
    if s.lossReported || !s.awaiting {
      assert trace + [] == trace;
    } else {
      LinkLost(s, ReportLoss(s).state, trace);
    }
  }

  lemma {:induction false} RequireKeyframeKeeps(c: Config, s: State, trace: seq<Output>, now: int)
    requires Linked(s, trace) && s.haveLast && Recovery(s)
    ensures var r := RequireKeyframe(c, s, now);
      && Linked(r.state, trace + r.out)
      && r.state == s.(awaiting := true, lossReported := r.state.lossReported)
  {
    var s1 := s.(awaiting := true, lossReported := false);
    assert trace + [] == trace;
    if !s.awaiting {
      assert Linked(s1, trace);
      ReportLossKeeps(s1, trace);
    }
  }

  // ---- delivery ----

  lemma {:induction false} ForgetKeepsAhead(s: State, q: Seq32)
    requires s.haveLast && s.inflight.Some? ==> Newer(s.inflight.value.seqNo, s.last)
    ensures var i := ForgetThrough(s.inflight, q); i.Some? ==> Newer(i.value.seqNo, q)
  {
  }

  lemma {:induction false} ReleaseKeeps(s: State, trace: seq<Output>)
    requires Shape(s, 1) && s.haveLast && !s.lossReported && Linked(s, trace)
    ensures var r := Release(s);
      && Linked(r.state, trace + r.out)
      && Shape(r.state, 2)
      && r.state == s.(last := r.state.last, inflight := r.state.inflight, held := r.state.held)
      && Left(r.state.held, s.held)
    decreases |s.held|
  {
    if s.held == [] || s.held[0].frame.seqNo != Succ(s.last) {
      assert trace + [] == trace;
      LeftSelf(s.held);
      if s.held != [] {
        assert s.held[0] in s.held;
        assert Distance(s.held[0].frame.seqNo, s.last) >= 2;
        forall h | h in s.held
          ensures Distance(h.frame.seqNo, s.last) >= 2
        {
          var i :| 0 <= i < |s.held| && s.held[i] == h;
        }
      }
    } else {
      var f := s.held[0].frame;
      var t := Advance(s.(held := s.held[1..]), f);
      ReleaseShape(s);
      assert s.held[0] in s.held;
      LinkDeliver(s, t, trace, f);
      ReleaseKeeps(t, trace + [Deliver(f)]);
      Regroup(trace, [Deliver(f)], Release(t).out);
    }
  }

  /** Moving the base to the first held frame keeps the rest in order and ahead of it. */
  lemma {:induction false} ReleaseShape(s: State)
    requires Shape(s, 1) && s.haveLast && s.held != [] && s.held[0].frame.seqNo == Succ(s.last)
    ensures Shape(Advance(s.(held := s.held[1..]), s.held[0].frame), 1)
  {
    var rest := s.held[1..];
    var b := s.held[0].frame.seqNo;
    forall i | 0 <= i < |rest|
      ensures Distance(rest[i].frame.seqNo, b) == Distance(rest[i].frame.seqNo, s.last) - 1
      ensures Distance(rest[i].frame.seqNo, s.last) >= 2
    {
      assert rest[i] == s.held[i + 1];
    }
    assert Ordered(rest, b) by {
      forall i, j | 0 <= i < j < |rest|
        ensures Distance(rest[i].frame.seqNo, b) < Distance(rest[j].frame.seqNo, b)
      {
        assert rest[i] == s.held[i + 1] && rest[j] == s.held[j + 1];
      }
    }
    assert forall h :: h in rest ==> h in s.held;
  }

  lemma {:induction false} KeepAheadFacts(aborted: seq<Seq32>, last: Seq32)
    ensures |KeepAhead(aborted, last)| <= |aborted|
    ensures forall a :: a in KeepAhead(aborted, last) <==> a in aborted && Newer(a, last)
    ensures (forall i, j :: 0 <= i < j < |aborted| ==> aborted[i] != aborted[j]) ==>
      forall i, j :: 0 <= i < j < |KeepAhead(aborted, last)| ==>
        KeepAhead(aborted, last)[i] != KeepAhead(aborted, last)[j]
    decreases |aborted|
  {
    if aborted == [] {
    } else {
      KeepAheadFacts(aborted[1..], last);
      assert aborted == [aborted[0]] + aborted[1..];
      var r := KeepAhead(aborted[1..], last);
      if forall i, j :: 0 <= i < j < |aborted| ==> aborted[i] != aborted[j] {
        assert forall i :: 0 <= i < |aborted[1..]| ==> aborted[1..][i] == aborted[i + 1];
        forall i | 0 <= i < |r|
          ensures r[i] != aborted[0]
        {
          assert r[i] in aborted[1..];
        }
      }
    }
  }

  lemma {:induction false} SettleKeeps(c: Config, s: State, trace: seq<Output>, now: int)
    requires Shape(s, 2) && s.haveLast && Recovery(s) && !OverBounds(c, s.held) && Linked(s, trace)
    ensures var r := Settle(c, s, now);
      && Inv(c, r.state)
      && Linked(r.state, trace + r.out)
  {
    var s1 := s.(gapSince := Earliest(s.held), aborted := KeepAhead(s.aborted, s.last));
    KeepAheadFacts(s.aborted, s.last);
    EarliestIsHeld(s.held, 0);
    assert trace + [] == trace;
    RequireKeyframeKeeps(c, s1, trace, now);
  }

  lemma {:induction false} DrainKeeps(c: Config, s: State, trace: seq<Output>, now: int)
    requires Shape(s, 1) && s.haveLast && !s.lossReported && Recovery(s)
    requires !OverBounds(c, s.held) && Linked(s, trace)
    ensures var r := Drain(c, s, now); Inv(c, r.state) && Linked(r.state, trace + r.out)
  {
    ReleaseKeeps(s, trace);
    var r := Release(s);
    LeftFacts(r.state.held, s.held, 0);
    SettleKeeps(c, r.state, trace + r.out, now);
    Regroup(trace, r.out, Settle(c, r.state, now).out);
  }

  /** The frame delivered first by `Resume` becomes the base of a well-formed state. */
  lemma {:induction false} ResumeStarts(s: State, f: Frame, trace: seq<Output>)
    requires Recovery(s) && Linked(s, trace)
    requires s.haveLast ==> Newer(f.seqNo, s.last) && (f.keyframe || f.seqNo == Succ(s.last))
    requires !s.haveLast ==> f.keyframe
    requires s.haveLast && s.inflight.Some? ==> Newer(s.inflight.value.seqNo, s.last)
    requires Ordered(s.held, f.seqNo)
    requires forall h :: h in s.held ==> !h.frame.keyframe && Newer(h.frame.seqNo, f.seqNo)
    ensures var t := Advance(s.(haveLast := true, awaiting := false, lossReported := false), f);
      Shape(t, 1) && Recovery(t) && Linked(t, trace + [Deliver(f)])
  {
    var t := Advance(s.(haveLast := true, awaiting := false, lossReported := false), f);
    ForgetKeepsAhead(s, f.seqNo);
    LinkDeliver(s, t, trace, f);
  }

  /** Delivering a frame that may be decoded next keeps the invariant. */
  lemma {:induction false} ResumeKeeps(c: Config, s: State, f: Frame, trace: seq<Output>, now: int)
    requires Recovery(s) && !OverBounds(c, s.held) && Linked(s, trace)
    requires s.haveLast ==> Newer(f.seqNo, s.last) && (f.keyframe || f.seqNo == Succ(s.last))
    requires !s.haveLast ==> f.keyframe
    requires s.haveLast && s.inflight.Some? ==> Newer(s.inflight.value.seqNo, s.last)
    requires Ordered(s.held, f.seqNo)
    requires forall h :: h in s.held ==> !h.frame.keyframe && Newer(h.frame.seqNo, f.seqNo)
    ensures var r := Resume(c, s, f, now); Inv(c, r.state) && Linked(r.state, trace + r.out)
  {
    var t := Advance(s.(haveLast := true, awaiting := false, lossReported := false), f);
    ResumeStarts(s, f, trace);
    DrainKeeps(c, t, trace + [Deliver(f)], now);
    Regroup(trace, [Deliver(f)], Drain(c, t, now).out);
  }

  // ---- each entry point ----

  lemma {:induction false} Distinct(held: seq<Held>, base: Seq32)
    requires Ordered(held, base)
    ensures forall i, j :: 0 <= i < j < |held| ==> held[i].frame.seqNo != held[j].frame.seqNo
  {
    forall i, j | 0 <= i < j < |held|
      ensures held[i].frame.seqNo != held[j].frame.seqNo
    {
      assert Distance(held[i].frame.seqNo, base) < Distance(held[j].frame.seqNo, base);
    }
  }

  lemma {:induction false} FirstKeyframeKeeps(c: Config, s: State, f: Frame, trace: seq<Output>, now: int)
    requires Inv(c, s) && Linked(s, trace) && !s.haveLast && f.keyframe
    ensures var r := OnFrame(c, s, f, now); Inv(c, r.state) && Linked(r.state, trace + r.out)
  {
    var newer := KeepNewer(s.held, f.seqNo);
    KeepNewerFacts(s.held, f.seqNo);
    LeftFacts(newer, s.held, s.last);
    Distinct(newer, s.last);
    RebaseFacts(newer, f.seqNo);
    ResumeKeeps(c, s.(held := Rebase(newer, f.seqNo), aborted := []), f, trace, now);
  }

  /** Frames in order ahead of `b` stay in order when the base moves up to one of them or past it. */
  lemma {:induction false} OrderedFrom(held: seq<Held>, b: Seq32, q: Seq32)
    requires Ordered(held, b) && Newer(q, b)
    requires forall h :: h in held ==> Newer(h.frame.seqNo, b) && Newer(h.frame.seqNo, q)
    ensures Ordered(held, q)
  {
    forall i, j | 0 <= i < j < |held|
      ensures Distance(held[i].frame.seqNo, q) < Distance(held[j].frame.seqNo, q)
    {
      assert held[i] in held && held[j] in held;
      assert Distance(held[i].frame.seqNo, b) < Distance(held[j].frame.seqNo, b);
    }
  }

  lemma {:induction false} OwedDeliveryKeeps(c: Config, s: State, f: Frame, trace: seq<Output>, now: int)
    requires Inv(c, s) && Linked(s, trace) && s.haveLast && f.seqNo == Succ(s.last)
    ensures var r := OnFrame(c, s, f, now); Inv(c, r.state) && Linked(r.state, trace + r.out)
  {
    OrderedFrom(s.held, s.last, f.seqNo);
    ResumeKeeps(c, s, f, trace, now);
  }

  lemma {:induction false} KeyframeOverGapKeeps(c: Config, s: State, f: Frame, trace: seq<Output>, now: int)
    requires Inv(c, s) && Linked(s, trace) && s.haveLast && Newer(f.seqNo, s.last)
    requires f.keyframe && f.seqNo != Succ(s.last)
    ensures var r := OnFrame(c, s, f, now); Inv(c, r.state) && Linked(r.state, trace + r.out)
  {
    var kept := KeepNewer(s.held, f.seqNo);
    KeepNewerFacts(s.held, f.seqNo);
    LeftFacts(kept, s.held, s.last);
    OrderedFrom(kept, s.last, f.seqNo);
    ResumeKeeps(c, s.(held := kept), f, trace, now);
  }

  lemma {:induction false} AnchoredDeliveryKeeps(c: Config, s: State, f: Frame, trace: seq<Output>, now: int)
    requires Inv(c, s) && Linked(s, trace) && s.haveLast && Newer(f.seqNo, s.last)
    requires f.keyframe || f.seqNo == Succ(s.last)
    ensures var r := OnFrame(c, s, f, now); Inv(c, r.state) && Linked(r.state, trace + r.out)
  {
    if f.seqNo == Succ(s.last) {
      OwedDeliveryKeeps(c, s, f, trace, now);
    } else {
      KeyframeOverGapKeeps(c, s, f, trace, now);
    }
  }

  lemma {:induction false} HoldBeforeKeyframeKeeps(c: Config, s: State, f: Frame, now: int)
    requires Inv(c, s) && !s.haveLast && !f.keyframe
    ensures Inv(c, HoldBeforeKeyframe(c, s, f, now))
  {
    if !Holds(s.held, f.seqNo) {
      var base := if s.held == [] then f.seqNo else s.last;
      PlaceFacts(s.held, base, Held(f, now));
      var placed := Place(s.held, base, Held(f, now));
      BoundFacts(c, placed, false);
      LeftFacts(Bound(c, placed, false), placed, base);
      EarliestIsHeld(Bound(c, placed, false), 0);
    }
  }

  lemma {:induction false} PlacedKeeps(c: Config, s: State, f: Frame, now: int)
    requires Inv(c, s) && s.haveLast && !f.keyframe && !Holds(s.held, f.seqNo)
    requires Newer(f.seqNo, s.last) && f.seqNo != Succ(s.last)
    ensures var t := Placed(s, f, now); Shape(t, 2) && Recovery(t) && AbortsAhead(t) && GapTimed(t)
  {
    var h := Held(f, now);
    PlaceFacts(s.held, s.last, h);
    assert h in Placed(s, f, now).held;
  }

  lemma {:induction false} BoundKeeps(c: Config, s: State)
    requires Shape(s, 2) && Recovery(s) && AbortsAhead(s) && s.haveLast
    ensures var kept := Bound(c, s.held, true); Inv(c, s.(held := kept, gapSince := Earliest(kept)))
  {
    BoundFacts(c, s.held, true);
    LeftFacts(Bound(c, s.held, true), s.held, s.last);
    EarliestIsHeld(Bound(c, s.held, true), 0);
  }

  lemma {:induction false} HoldBehindGapKeeps(c: Config, s: State, f: Frame, trace: seq<Output>, now: int)
    requires Inv(c, s) && Linked(s, trace) && s.haveLast && !f.keyframe
    requires Newer(f.seqNo, s.last) && f.seqNo != Succ(s.last)
    ensures var r := HoldBehindGap(c, s, f, now); Inv(c, r.state) && Linked(r.state, trace + r.out)
  {
    assert trace + [] == trace;
    if !Holds(s.held, f.seqNo) {
      var s1 := Placed(s, f, now);
      PlacedKeeps(c, s, f, now);
      assert Linked(s1, trace);
      RequireKeyframeKeeps(c, s1, trace, now);
      var r := RequireKeyframe(c, s1, now);
      if OverBounds(c, s1.held) {
        BoundKeeps(c, r.state);
      }
    }
  }

  lemma {:induction false} OnFrameKeeps(c: Config, s: State, f: Frame, trace: seq<Output>, now: int)
    requires Inv(c, s) && Linked(s, trace)
    ensures var r := OnFrame(c, s, f, now); Inv(c, r.state) && Linked(r.state, trace + r.out)
  {
    assert trace + [] == trace;
    if s.haveLast && !Newer(f.seqNo, s.last) {
    } else if !s.haveLast {
      if f.keyframe {
        FirstKeyframeKeeps(c, s, f, trace, now);
      } else {
        HoldBeforeKeyframeKeeps(c, s, f, now);
      }
    } else if f.seqNo == Succ(s.last) || f.keyframe {
      AnchoredDeliveryKeeps(c, s, f, trace, now);
    } else {
      HoldBehindGapKeeps(c, s, f, trace, now);
    }
  }

  lemma {:induction false} RememberAbortKeeps(c: Config, s: State, q: Seq32)
    requires Inv(c, s) && s.haveLast && Newer(q, s.last) && q != Succ(s.last)
    ensures Inv(c, RememberAbort(s, q))
  {
    if Holds(s.held, q) {
      WithoutFacts(s.held, q);
      LeftFacts(Without(s.held, q), s.held, s.last);
      EarliestIsHeld(Without(s.held, q), 0);
    }
  }

  lemma {:induction false} AbortOwedKeeps(c: Config, s: State, lostKey: bool, trace: seq<Output>, now: int)
    requires Inv(c, s) && Linked(s, trace) && s.haveLast
    ensures var r := AbortOwed(c, s, lostKey, now); Inv(c, r.state) && Linked(r.state, trace + r.out)
  {
    RequireKeyframeKeeps(c, s, trace, now);
    var r := RequireKeyframe(c, s, now);
    ReportLossKeeps(r.state, trace + r.out);
    Regroup(trace, r.out, ReportLoss(r.state).out);
  }

  lemma {:induction false} ReportLossInv(c: Config, s: State)
    requires Inv(c, s) && s.haveLast
    ensures Inv(c, ReportLoss(s).state)
  {
  }

  lemma {:induction false} RememberAbortLinked(s: State, q: Seq32, trace: seq<Output>)
    requires Linked(s, trace)
    ensures Linked(RememberAbort(s, q), trace)
  {
  }

  lemma {:induction false} AbortAheadKeeps(c: Config, s: State, q: Seq32, lostKey: bool, trace: seq<Output>)
    requires Inv(c, s) && Linked(s, trace) && s.haveLast && Newer(q, s.last) && q != Succ(s.last)
    ensures var r := AbortAhead(s, q, lostKey); Inv(c, r.state) && Linked(r.state, trace + r.out)
  {
    var r := if lostKey && s.awaiting then ReportLoss(s) else Step(s, []);
    if lostKey && s.awaiting {
      ReportLossKeeps(s, trace);
      ReportLossInv(c, s);
    } else {
      assert trace + [] == trace;
    }
    assert r.state == s.(lossReported := r.state.lossReported);
    RememberAbortKeeps(c, r.state, q);
    RememberAbortLinked(r.state, q, trace + r.out);
  }

  lemma {:induction false} OnAbortedKeeps(c: Config, s: State, q: Seq32, trace: seq<Output>, now: int)
    requires Inv(c, s) && Linked(s, trace)
    ensures var r := OnAborted(c, s, q, now); Inv(c, r.state) && Linked(r.state, trace + r.out)
  {
    assert trace + [] == trace;
    var lostKey := s.inflight.Some? && q == s.inflight.value.seqNo;
    var s1 := if lostKey then s.(inflight := None) else s;
    assert Inv(c, s1) && Linked(s1, trace);
    if s1.haveLast && q == Succ(s1.last) {
      AbortOwedKeeps(c, s1, lostKey, trace, now);
    } else if s1.haveLast && Newer(q, s1.last) {
      AbortAheadKeeps(c, s1, q, lostKey, trace);
    }
  }

  lemma {:induction false} KeepFreshKeeps(c: Config, s: State, now: int, hold: int)
    requires Inv(c, s)
    ensures var kept := KeepFresh(s.held, now, hold); Inv(c, s.(held := kept, gapSince := Earliest(kept)))
  {
    var kept := KeepFresh(s.held, now, hold);
    KeepFreshFacts(s.held, now, hold);
    LeftFacts(kept, s.held, s.last);
    EarliestIsHeld(kept, 0);
  }

  lemma {:induction false} OnPollKeeps(c: Config, s: State, trace: seq<Output>, now: int)
    requires Inv(c, s) && Linked(s, trace)
    ensures var r := OnPoll(c, s, now); Inv(c, r.state) && Linked(r.state, trace + r.out)
  {
    assert trace + [] == trace;
    if !s.haveLast {
      KeepFreshKeeps(c, s, now, HoldUs(c, s.rtt));
    } else if s.awaiting {
      ReportLossKeeps(s, trace);
    } else {
      RequireKeyframeKeeps(c, s, trace, now);
    }
  }

  lemma {:induction false} OnStartedKeeps(c: Config, s: State, q: Seq32, keyframe: bool, trace: seq<Output>, now: int)
    requires Inv(c, s) && Linked(s, trace)
    ensures Inv(c, OnStarted(s, q, keyframe, now)) && Linked(OnStarted(s, q, keyframe, now), trace)
  {
  }

  lemma {:induction false} SetRttKeeps(c: Config, s: State, rtt: nat, trace: seq<Output>)
    requires Inv(c, s) && Linked(s, trace)
    ensures Inv(c, s.(rtt := rtt)) && Linked(s.(rtt := rtt), trace)
  {
  }

  lemma {:induction false} ApplyKeeps(c: Config, s: State, e: Event, trace: seq<Output>)
    requires Inv(c, s) && Linked(s, trace)
    ensures var r := Apply(c, s, e); Inv(c, r.state) && Linked(r.state, trace + r.out)
  {
    assert trace + [] == trace;
    match e
    case Arrived(f, now) => OnFrameKeeps(c, s, f, trace, now);
    case Started(q, k, now) => OnStartedKeeps(c, s, q, k, trace, now);
    case Aborted(q, now) => OnAbortedKeeps(c, s, q, trace, now);
    case Poll(now) => OnPollKeeps(c, s, trace, now);
    case SetRtt(rtt) => SetRttKeeps(c, s, rtt, trace);
  }

  /** The invariant does not depend on what was delivered before. */
  ghost function SomeTrace(s: State): (t: seq<Output>)
    requires Recovery(s)
    ensures Linked(s, t)
  {
    var f := Frame(s.last, true, []);
    var none: seq<Output> := [];
    if !s.haveLast then none
    else
      LinkDeliver(s.(haveLast := false, lossReported := false), s.(lossReported := false), none, f);
      assert none + [Deliver(f)] == [Deliver(f)];
      LinkLost(s.(lossReported := false), s.(lossReported := true), [Deliver(f)]);
      if s.lossReported then [Deliver(f)] + [Lost(Succ(s.last))] else [Deliver(f)]
  }

  lemma {:induction false} OnFrameKeepsInv(c: Config, s: State, f: Frame, now: int)
    requires Inv(c, s)
    ensures Inv(c, OnFrame(c, s, f, now).state)
  {
    OnFrameKeeps(c, s, f, SomeTrace(s), now);
  }

  lemma {:induction false} OnAbortedKeepsInv(c: Config, s: State, q: Seq32, now: int)
    requires Inv(c, s)
    ensures Inv(c, OnAborted(c, s, q, now).state)
  {
    OnAbortedKeeps(c, s, q, SomeTrace(s), now);
  }

  lemma {:induction false} OnPollKeepsInv(c: Config, s: State, now: int)
    requires Inv(c, s)
    ensures Inv(c, OnPoll(c, s, now).state)
  {
    OnPollKeeps(c, s, SomeTrace(s), now);
  }

  // ---- whole runs ----

  lemma {:induction false} RunKeeps(c: Config, rtt: nat, events: seq<Event>)
    ensures Inv(c, Run(c, rtt, events).state)
    ensures Linked(Run(c, rtt, events).state, Run(c, rtt, events).out)
    decreases |events|
  {
    if events == [] {
    } else {
      var before := events[..|events| - 1];
      RunKeeps(c, rtt, before);
      ApplyKeeps(c, Run(c, rtt, before).state, events[|events| - 1], Run(c, rtt, before).out);
    }
  }

  /**
   Decode safety: from a reset, for every interleaving of arrivals, starts, aborts and
   polls, the first frame delivered is a keyframe, each delivered frame is wrap-newer than
   the one before it, and each delivered delta directly follows its exact predecessor.
   */
  lemma {:induction false} EveryRunIsDecodable(c: Config, rtt: nat, events: seq<Event>)
    ensures DecodeSafe(Delivered(Run(c, rtt, events).out))
  {
    RunKeeps(c, rtt, events);
  }

  lemma {:induction false} LossesAreApart(trace: seq<Output>)
    requires LossSafe(trace)
    ensures forall i, j :: 0 <= i < j < |trace| && trace[i].Lost? && trace[j].Lost? ==>
      i + 1 < j && trace[j - 1].Deliver?
  {
    forall i, j | 0 <= i < j < |trace| && trace[i].Lost? && trace[j].Lost?
      ensures i + 1 < j && trace[j - 1].Deliver?
    {
      assert LossAt(trace, j);
    }
  }

  /**
   One loss report per break: each names the successor of the newest delivered frame, and
   two of them always have a delivery between them.
   */
  lemma {:induction false} EveryRunReportsABreakOnce(c: Config, rtt: nat, events: seq<Event>)
    ensures var trace := Run(c, rtt, events).out;
      && LossSafe(trace)
      && forall i, j :: 0 <= i < j < |trace| && trace[i].Lost? && trace[j].Lost? ==>
           i + 1 < j && trace[j - 1].Deliver?
  {
    RunKeeps(c, rtt, events);
    LossesAreApart(Run(c, rtt, events).out);
  }

  /**
   A remembered abort of the frame owed always means recovery is already under way, so the
   re-check made when a delta is held behind the gap never starts a request of its own.
   */
  lemma {:induction false} HeldDeltaNeverStartsARequest(c: Config, rtt: nat, events: seq<Event>, now: int)
    ensures var s := Run(c, rtt, events).state;
      s.haveLast && Succ(s.last) in s.aborted ==> RequireKeyframe(c, s, now) == Step(s, [])
  {
    RunKeeps(c, rtt, events);
  }

  // ---- the gap timer ----

  function Now(e: Event): Option<int> {
    match e
    case Arrived(_, now) => Some(now)
    case Started(_, _, now) => Some(now)
    case Aborted(_, now) => Some(now)
    case Poll(now) => Some(now)
    case SetRtt(_) => None
  }

  /** The clock shown to the buffer is positive and never goes back. */
  ghost predicate SteadyClock(events: seq<Event>) {
    && (forall i :: 0 <= i < |events| && Now(events[i]).Some? ==> Now(events[i]).value > 0)
    && (forall i, j :: 0 <= i < j < |events| && Now(events[i]).Some? && Now(events[j]).Some? ==>
          Now(events[i]).value <= Now(events[j]).value)
  }

  /** `gapSince` is the earliest held arrival, 0 when nothing is held. */
  ghost predicate GapExact(s: State) {
    && (forall h :: h in s.held ==> 0 < s.gapSince <= h.arrived)
    && GapTimed(s)
  }

  /** Every held frame arrived by `t`. */
  ghost predicate ArrivedBy(s: State, t: int) {
    forall h :: h in s.held ==> 0 < h.arrived <= t
  }

  lemma {:induction false} ReleaseLeaves(s: State)
    ensures Left(Release(s).state.held, s.held)
    decreases |s.held|
  {
    LeftSelf(s.held);
    if s.held == [] || s.held[0].frame.seqNo != Succ(s.last) {
    } else {
      ReleaseLeaves(Advance(s.(held := s.held[1..]), s.held[0].frame));
    }
  }

  /** A state whose timer was just set from its held frames, some of which were dropped, is exact. */
  lemma {:induction false} TimerIsExact(s: State, before: seq<Held>, t: int)
    requires Left(s.held, before) && s.gapSince == Earliest(s.held)
    requires forall h :: h in before ==> 0 < h.arrived <= t
    ensures GapExact(s) && ArrivedBy(s, t)
  {
    LeftFacts(s.held, before, 0);
    EarliestIsLeast(s.held, 0);
    EarliestIsHeld(s.held, 0);
  }

  lemma {:induction false} SettleSetsTheTimer(c: Config, s: State, now: int)
    ensures Settle(c, s, now).state.held == s.held && Settle(c, s, now).state.gapSince == Earliest(s.held)
  {
  }

  lemma {:induction false} ResumeGap(c: Config, s: State, f: Frame, now: int)
    requires ArrivedBy(s, now)
    ensures GapExact(Resume(c, s, f, now).state) && ArrivedBy(Resume(c, s, f, now).state, now)
  {
    var t := Advance(s.(haveLast := true, awaiting := false, lossReported := false), f);
    ReleaseLeaves(t);
    SettleSetsTheTimer(c, Release(t).state, now);
    TimerIsExact(Resume(c, s, f, now).state, s.held, now);
  }

  lemma {:induction false} HoldStartupGap(c: Config, s: State, f: Frame, now: int)
    requires Inv(c, s) && ArrivedBy(s, now) && now > 0
    requires !s.haveLast && !Holds(s.held, f.seqNo)
    ensures var r := HoldBeforeKeyframe(c, s, f, now); GapExact(r) && ArrivedBy(r, now)
  {
    var base := if s.held == [] then f.seqNo else s.last;
    PlaceFacts(s.held, base, Held(f, now));
    var placed := Place(s.held, base, Held(f, now));
    BoundFacts(c, placed, false);
    TimerIsExact(HoldBeforeKeyframe(c, s, f, now), placed, now);
  }

  lemma {:induction false} HoldDeltaGap(c: Config, s: State, f: Frame, now: int)
    requires Inv(c, s) && GapExact(s) && ArrivedBy(s, now) && now > 0
    requires s.haveLast && !Holds(s.held, f.seqNo)
    ensures var r := HoldBehindGap(c, s, f, now).state; GapExact(r) && ArrivedBy(r, now)
  {
    var h := Held(f, now);
    PlaceFacts(s.held, s.last, h);
    var s1 := Placed(s, f, now);
    var r := HoldBehindGap(c, s, f, now).state;
    if OverBounds(c, s1.held) {
      BoundFacts(c, s1.held, true);
      TimerIsExact(r, s1.held, now);
    } else {
      assert r.held == s1.held && r.gapSince == s1.gapSince;
      assert h in s1.held;
    }
  }

  lemma {:induction false} OnFrameGap(c: Config, s: State, f: Frame, now: int)
    requires Inv(c, s) && GapExact(s) && ArrivedBy(s, now) && now > 0
    ensures GapExact(OnFrame(c, s, f, now).state) && ArrivedBy(OnFrame(c, s, f, now).state, now)
  {
    var newer := KeepNewer(s.held, f.seqNo);
    if s.haveLast && !Newer(f.seqNo, s.last) {
    } else if !s.haveLast && f.keyframe {
      KeepNewerFacts(s.held, f.seqNo);
      LeftFacts(newer, s.held, s.last);
      Distinct(newer, s.last);
      RebaseFacts(newer, f.seqNo);
      ResumeGap(c, s.(held := Rebase(newer, f.seqNo), aborted := []), f, now);
    } else if s.haveLast && f.seqNo == Succ(s.last) {
      ResumeGap(c, s, f, now);
    } else if f.keyframe {
      KeepNewerFacts(s.held, f.seqNo);
      ResumeGap(c, s.(held := newer), f, now);
    } else if !Holds(s.held, f.seqNo) {
      if s.haveLast { HoldDeltaGap(c, s, f, now); } else { HoldStartupGap(c, s, f, now); }
    }
  }

  lemma {:induction false} RememberAbortGap(s: State, q: Seq32, t: int)
    requires GapExact(s) && ArrivedBy(s, t)
    ensures GapExact(RememberAbort(s, q)) && ArrivedBy(RememberAbort(s, q), t)
  {
    WithoutFacts(s.held, q);
    if Holds(s.held, q) { TimerIsExact(RememberAbort(s, q), s.held, t); }
  }

  lemma {:induction false} OnAbortedGap(c: Config, s: State, q: Seq32, now: int)
    requires GapExact(s) && ArrivedBy(s, now)
    ensures GapExact(OnAborted(c, s, q, now).state) && ArrivedBy(OnAborted(c, s, q, now).state, now)
  {
    var lostKey := s.inflight.Some? && q == s.inflight.value.seqNo;
    var s1 := if lostKey then s.(inflight := None) else s;
    if s1.haveLast && q == Succ(s1.last) {
      var r := AbortOwed(c, s1, lostKey, now).state;
      assert r.held == s.held && r.gapSince == s.gapSince;
    } else if s1.haveLast && Newer(q, s1.last) {
      var r := if lostKey && s1.awaiting then ReportLoss(s1) else Step(s1, []);
      assert r.state.held == s.held && r.state.gapSince == s.gapSince;
      RememberAbortGap(r.state, q, now);
    }
  }

  lemma {:induction false} OnPollGap(c: Config, s: State, now: int)
    requires GapExact(s) && ArrivedBy(s, now)
    ensures GapExact(OnPoll(c, s, now).state) && ArrivedBy(OnPoll(c, s, now).state, now)
  {
    var hold := HoldUs(c, s.rtt);
    KeepFreshFacts(s.held, now, hold);
    if !s.haveLast { TimerIsExact(OnPoll(c, s, now).state, s.held, now); }
  }

  lemma {:induction false} ApplyGap(c: Config, s: State, e: Event, t: int)
    requires Inv(c, s) && GapExact(s) && ArrivedBy(s, t)
    requires Now(e).Some? ==> 0 < Now(e).value && t <= Now(e).value
    ensures GapExact(Apply(c, s, e).state)
    ensures ArrivedBy(Apply(c, s, e).state, if Now(e).Some? then Now(e).value else t)
  {
    match e
    case Arrived(f, now) => OnFrameGap(c, s, f, now);
    case Started(_, _, _) =>
    case Aborted(q, now) => OnAbortedGap(c, s, q, now);
    case Poll(now) => OnPollGap(c, s, now);
    case SetRtt(_) =>
  }

  lemma {:induction false} RunGap(c: Config, rtt: nat, events: seq<Event>, t: int)
    requires SteadyClock(events)
    requires forall i :: 0 <= i < |events| && Now(events[i]).Some? ==> Now(events[i]).value <= t
    ensures GapExact(Run(c, rtt, events).state) && ArrivedBy(Run(c, rtt, events).state, t)
    decreases |events|
  {
    if events == [] {
    } else {
      var n := |events| - 1;
      var before, e := events[..n], events[n];
      var t1 := if Now(e).Some? then Now(e).value else t;
      RunGap(c, rtt, before, t1);
      RunKeeps(c, rtt, before);
      ApplyGap(c, Run(c, rtt, before).state, e, t1);
    }
  }

  /**
   With a positive clock that never goes back, the gap timer is exactly the earliest held
   arrival after every run, although draining moves the base under the held frames.
   */
  lemma {:induction false} GapTimerIsTheEarliestArrival(c: Config, rtt: nat, events: seq<Event>)
    requires SteadyClock(events)
    ensures GapExact(Run(c, rtt, events).state)
  {
    var t := Latest(events);
    RunGap(c, rtt, events, t);
  }

  function Latest(events: seq<Event>): (t: int)
    ensures forall i :: 0 <= i < |events| && Now(events[i]).Some? ==> Now(events[i]).value <= t
    decreases |events|
  {
    if events == [] then 0
    else
      var n := |events| - 1;
      var t := Latest(events[..n]);
      assert forall i :: 0 <= i < n ==> events[i] == events[..n][i];
      match Now(events[n])
      case None => t
      case Some(v) => Max(t, v)
  }
}
