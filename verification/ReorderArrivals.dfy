/**
 What becomes of every frame that arrives and of every frame held, after every run: a frame
 that repairs the chain is delivered with the longest unbroken run of the held frames behind
 it, the others newer than it stay held, and a delta that repairs nothing is held for as
 long as it fits.
 */
module ReorderArrivals {
  import opened Basics
  import opened SequenceNumbers
  import opened FrameReorder
  import opened ReorderHeld
  import opened ReorderSafety

  // ---- the frames behind a delivered one ----

  function Deliveries(held: seq<Held>): seq<Output>
    decreases |held|
  {
    if held == [] then [] else [Deliver(held[0].frame)] + Deliveries(held[1..])
  }

  /** The frames follow `q` number by number. */
  ghost predicate Unbroken(q: Seq32, held: seq<Held>)
    decreases |held|
  {
    held == [] || (held[0].frame.seqNo == Succ(q) && Unbroken(held[0].frame.seqNo, held[1..]))
  }

  function LastOf(q: Seq32, held: seq<Held>): Seq32 {
    if held == [] then q else held[|held| - 1].frame.seqNo
  }

  /** `q` is newer than every one of the frames. */
  ghost predicate AheadOfAll(q: Seq32, held: seq<Held>) {
    forall h :: h in held ==> Newer(q, h.frame.seqNo)
  }

  /** A keyframe in flight is still counted on exactly if it is newer than all that was delivered. */
  ghost function StillInFlight(inflight: Option<InFlight>, held: seq<Held>): Option<InFlight> {
    if inflight.Some? && AheadOfAll(inflight.value.seqNo, held) then inflight else None
  }

  /** `pool` holds exactly the frames of `held` that are newer than `q`, nearest first. */
  ghost predicate Pool(held: seq<Held>, q: Seq32, pool: seq<Held>) {
    && (forall h :: h in pool <==> h in held && Newer(h.frame.seqNo, q))
    && Ordered(pool, q)
  }

  // ---- releasing ----

  /** What a release does: a prefix of the held frames goes out, the rest stays. */
  ghost predicate Splits(s: State, r: Step) {
    var k := |s.held| - |r.state.held|;
    && k >= 0 && r.state.held == s.held[k..]
    && Unbroken(s.last, s.held[..k])
    && r.out == Deliveries(s.held[..k])
    && r.state == s.(held := s.held[k..], last := LastOf(s.last, s.held[..k]),
                     inflight := StillInFlight(s.inflight, s.held[..k]))
  }

  lemma {:induction false} ForgetOne(inflight: Option<InFlight>, h: Held, rest: seq<Held>)
    ensures StillInFlight(ForgetThrough(inflight, h.frame.seqNo), rest) == StillInFlight(inflight, [h] + rest)
  {
    assert h in [h] + rest;
    assert forall x :: x in [h] + rest <==> x == h || x in rest;
  }

  lemma {:induction false} NothingSplits(s: State)
    ensures Splits(s, Step(s, []))
  {
    assert s.held[0..] == s.held && s.held[..0] == [];
    assert StillInFlight(s.inflight, []) == s.inflight;
  }

  lemma {:induction false} ReleaseSplits(s: State)
    ensures Splits(s, Release(s))
    decreases |s.held|
  {
    if s.held == [] || s.held[0].frame.seqNo != Succ(s.last) {
      NothingSplits(s);
    } else {
      var t := Advance(s.(held := s.held[1..]), s.held[0].frame);
      ReleaseSplits(t);
      OneMoreSplits(s, t, Release(t));
      assert Release(s) == Step(Release(t).state, [Deliver(s.held[0].frame)] + Release(t).out);
    }
  }

  lemma {:induction false} OneMoreSplits(s: State, t: State, r: Step)
    requires s.held != [] && s.held[0].frame.seqNo == Succ(s.last)
    requires t == Advance(s.(held := s.held[1..]), s.held[0].frame) && Splits(t, r)
    ensures Splits(s, Step(r.state, [Deliver(s.held[0].frame)] + r.out))
  {
    var k := |t.held| - |r.state.held|;
    assert t.held[k..] == s.held[k + 1..];
    assert s.held[..k + 1] == [s.held[0]] + t.held[..k];
    assert s.held[..k + 1][1..] == t.held[..k];
    ForgetOne(s.inflight, s.held[0], t.held[..k]);
  }

  // ---- a frame that repairs the chain ----

  /** A keyframe ahead of the chain, or the very frame owed. */
  ghost predicate Repairs(s: State, f: Frame) {
    || (f.keyframe && (s.haveLast ==> Newer(f.seqNo, s.last)))
    || (s.haveLast && f.seqNo == Succ(s.last))
  }

  /** The run behind `f` goes out with it, as long as it is unbroken; what is left stays held. */
  ghost predicate Resumed(f: Frame, now: int, pool: seq<Held>, r: Step) {
    var k := |pool| - |r.state.held|;
    && k >= 0 && r.state.held == pool[k..]
    && Unbroken(f.seqNo, pool[..k])
    && r.state.haveLast && r.state.last == LastOf(f.seqNo, pool[..k])
    && !Holds(pool[k..], Succ(r.state.last))
    && r.out == [Deliver(f)] + Deliveries(pool[..k]) + if r.state.lossReported then [Lost(Succ(r.state.last))] else []
  }

  /** Recovery goes on only if the frame now owed is known to be lost; then it is reported, or a keyframe is trusted to come. */
  ghost predicate Recovers(c: Config, now: int, r: Step) {
    && (r.state.awaiting <==> Succ(r.state.last) in r.state.aborted)
    && (r.state.lossReported ==> r.state.awaiting)
    && (r.state.awaiting ==> r.state.lossReported || KeyframeInFlight(c, r.state, now))
  }

  /** What is remembered besides the held frames: aborts still ahead, and a keyframe still ahead of all delivered. */
  ghost predicate Remembers(s: State, f: Frame, pool: seq<Held>, r: Step) {
    var k := |pool| - |r.state.held|;
    && (forall a :: a in r.state.aborted <==> s.haveLast && a in s.aborted && Newer(a, r.state.last))
    && k >= 0 && r.state.inflight == StillInFlight(s.inflight, [Held(f, 0)] + pool[..k])
    && r.state.rtt == s.rtt
  }

  /** The state in which the drain behind `f` starts. */
  function Started(s: State, f: Frame): State {
    Advance(s.(haveLast := true, awaiting := false, lossReported := false), f)
  }

  lemma {:induction false} SettleFacts(c: Config, s: State, now: int)
    requires s.haveLast && !s.awaiting && !s.lossReported
    ensures var r := Settle(c, s, now);
      && r.state == s.(gapSince := r.state.gapSince, aborted := KeepAhead(s.aborted, s.last),
                       awaiting := r.state.awaiting, lossReported := r.state.lossReported)
      && Recovers(c, now, r)
      && r.out == if r.state.lossReported then [Lost(Succ(s.last))] else []
  {
  }

  lemma {:induction false} ResumeUnfolds(c: Config, s: State, f: Frame, now: int)
    ensures var u := Release(Started(s, f)); var v := Settle(c, u.state, now);
      Resume(c, s, f, now) == Step(v.state, [Deliver(f)] + (u.out + v.out))
  {
  }

  lemma {:induction false} SplitThenSettled(f: Frame, now: int, t: State, u: Step, v: Step)
    requires Splits(t, u) && t.haveLast && t.last == f.seqNo && !Holds(u.state.held, Succ(u.state.last))
    requires v.state.held == u.state.held && v.state.last == u.state.last && v.state.haveLast
    requires v.out == if v.state.lossReported then [Lost(Succ(u.state.last))] else []
    ensures Resumed(f, now, t.held, Step(v.state, [Deliver(f)] + (u.out + v.out)))
  {
    Regroup([Deliver(f)], u.out, v.out);
  }

  lemma {:induction false} ResumeIsAccounted(c: Config, s: State, f: Frame, now: int)
    requires Shape(Started(s, f), 1)
    ensures var r := Resume(c, s, f, now);
      Resumed(f, now, s.held, r) && Recovers(c, now, r) && r.state.rtt == s.rtt
  {
    var t := Started(s, f);
    var u := Release(t);
    var v := Settle(c, u.state, now);
    ReleaseSplits(t);
    SettleFacts(c, u.state, now);
    DrainedOwesNothingHeld(t);
    SplitThenSettled(f, now, t, u, v);
    ResumeUnfolds(c, s, f, now);
  }

  /** After a release the frame owed is not among those left. */
  lemma {:induction false} DrainedOwesNothingHeld(s: State)
    requires Shape(s, 1) && s.haveLast
    ensures !Holds(Release(s).state.held, Succ(Release(s).state.last))
  {
    ReleaseSplits(s);
    ReleaseIsOrdered(s);
    FarAhead(Release(s).state);
  }

  lemma {:induction false} FarAhead(s: State)
    requires Shape(s, 2) && s.haveLast
    ensures !Holds(s.held, Succ(s.last))
  {
    forall i | 0 <= i < |s.held|
      ensures s.held[i].frame.seqNo != Succ(s.last)
    {
      assert s.held[i] in s.held;
    }
  }

  lemma {:induction false} ReleaseIsOrdered(s: State)
    requires Shape(s, 1) && s.haveLast
    ensures Shape(Release(s).state, 2)
  {
    var f := Frame(s.last, true, []);
    var none: seq<Output> := [];
    var s0 := s.(lossReported := false);
    LinkDeliver(s0.(haveLast := false), s0, none, f);
    assert none + [Deliver(f)] == [Deliver(f)];
    ReleaseKeeps(s0, [Deliver(f)]);
    ReleaseIgnoresFlags(s, s0);
  }

  lemma {:induction false} ReleaseIgnoresFlags(s: State, t: State)
    requires t == s.(lossReported := t.lossReported)
    ensures Release(t).state == Release(s).state.(lossReported := t.lossReported) && Release(t).out == Release(s).out
    decreases |s.held|
  {
    if s.held == [] || s.held[0].frame.seqNo != Succ(s.last) {
    } else {
      ReleaseIgnoresFlags(Advance(s.(held := s.held[1..]), s.held[0].frame),
                          Advance(t.(held := t.held[1..]), t.held[0].frame));
    }
  }

  lemma {:induction false} ResumeRemembers(c: Config, s: State, f: Frame, now: int)
    requires !s.haveLast ==> s.aborted == []
    ensures Remembers(s, f, s.held, Resume(c, s, f, now))
  {
    var t := Started(s, f);
    var u := Release(t);
    ReleaseSplits(t);
    SettleFacts(c, u.state, now);
    KeepAheadFacts(s.aborted, u.state.last);
    ForgetOne(s.inflight, Held(f, 0), s.held[..|s.held| - |u.state.held|]);
    ResumeUnfolds(c, s, f, now);
  }

  /** The frames held behind the repairing one, as each branch of `on_frame` finds them. */
  function Kept(s: State, f: Frame): State {
    if !s.haveLast then s.(held := Rebase(KeepNewer(s.held, f.seqNo), f.seqNo), aborted := [])
    else if f.seqNo == Succ(s.last) then s
    else s.(held := KeepNewer(s.held, f.seqNo))
  }

  lemma {:induction false} AnchorPool(held: seq<Held>, base: Seq32, q: Seq32)
    requires Ordered(held, base)
    ensures Pool(held, q, Rebase(KeepNewer(held, q), q))
  {
    var newer := KeepNewer(held, q);
    KeepNewerFacts(held, q);
    LeftFacts(newer, held, base);
    Distinct(newer, base);
    RebaseFacts(newer, q);
  }

  lemma {:induction false} GapPool(held: seq<Held>, base: Seq32, q: Seq32)
    requires Ordered(held, base) && Newer(q, base) && forall h :: h in held ==> Newer(h.frame.seqNo, base)
    ensures Pool(held, q, KeepNewer(held, q))
  {
    KeepNewerFacts(held, q);
    LeftFacts(KeepNewer(held, q), held, base);
    OrderedFrom(KeepNewer(held, q), base, q);
  }

  lemma {:induction false} OwedPool(held: seq<Held>, base: Seq32)
    requires Ordered(held, base) && forall h :: h in held ==> Distance(h.frame.seqNo, base) >= 2
    ensures Pool(held, Succ(base), held)
  {
    OrderedFrom(held, base, Succ(base));
  }

  lemma {:induction false} KeptIsThePool(c: Config, s: State, f: Frame)
    requires Inv(c, s) && Repairs(s, f)
    ensures Pool(s.held, f.seqNo, Kept(s, f).held)
  {
    if !s.haveLast {
      AnchorPool(s.held, s.last, f.seqNo);
    } else if f.seqNo == Succ(s.last) {
      OwedPool(s.held, s.last);
    } else {
      GapPool(s.held, s.last, f.seqNo);
    }
  }

  /** A pool of deltas is in shape to be drained behind `f`. */
  lemma {:induction false} PoolIsInShape(c: Config, s: State, f: Frame)
    requires Inv(c, s) && Pool(s.held, f.seqNo, Kept(s, f).held)
    ensures Shape(Started(Kept(s, f), f), 1)
  {
    ForgetKeepsAhead(Kept(s, f), f.seqNo);
  }

  /** All that a repairing frame does, with the pool it finds. */
  ghost predicate RepairAccounted(c: Config, s: State, f: Frame, now: int, pool: seq<Held>, r: Step) {
    Pool(s.held, f.seqNo, pool) && Resumed(f, now, pool, r) && Recovers(c, now, r) && Remembers(s, f, pool, r)
  }

  lemma {:induction false} RepairResumes(c: Config, s: State, f: Frame, now: int)
    requires Repairs(s, f)
    ensures OnFrame(c, s, f, now) == Resume(c, Kept(s, f), f, now)
  {
  }

  lemma {:induction false} RepairIsAccounted(c: Config, s: State, f: Frame, now: int)
    requires Inv(c, s) && Repairs(s, f)
    ensures RepairAccounted(c, s, f, now, Kept(s, f).held, OnFrame(c, s, f, now))
  {
    var t := Kept(s, f);
    KeptIsThePool(c, s, f);
    PoolIsInShape(c, s, f);
    ResumeIsAccounted(c, t, f, now);
    ResumeRemembers(c, t, f, now);
    RepairResumes(c, s, f, now);
    RemembersAlike(s, t, f, t.held, Resume(c, t, f, now));
  }

  lemma {:induction false} RemembersAlike(s: State, t: State, f: Frame, pool: seq<Held>, r: Step)
    requires Remembers(t, f, pool, r)
    requires t.aborted == s.aborted && t.inflight == s.inflight && t.rtt == s.rtt && t.haveLast == s.haveLast
    ensures Remembers(s, f, pool, r)
  {
  }

  // ---- a delta that repairs nothing ----

  /** What the buffer could hold, nearest to `base` first: everything held, and the new frame. */
  ghost predicate Offered(held: seq<Held>, base: Seq32, h: Held, all: seq<Held>) {
    && (forall x :: x in all <==> x == h || x in held)
    && Ordered(all, base) && |all| == |held| + 1 && Bytes(all) == Bytes(held) + |h.frame.data|
  }

  /** As much of it as fits is kept: the nearest of an anchored buffer, the farthest of an unanchored one. */
  ghost predicate KeptWhatFits(c: Config, all: seq<Held>, anchored: bool, kept: seq<Held>) {
    var n := |all| - |kept|;
    && n >= 0 && !OverBounds(c, kept)
    && kept == (if anchored then all[..|kept|] else all[n..])
    && (n > 0 ==> OverBounds(c, if anchored then all[..|kept| + 1] else all[n - 1..]))
  }

  /** Only a buffer that overflows asks for a keyframe, once, and not while one is trusted to come. */
  ghost predicate AsksIfOver(c: Config, s: State, now: int, over: bool, r: Step) {
    && r.state == s.(held := r.state.held, gapSince := r.state.gapSince,
                     awaiting := s.awaiting || over, lossReported := r.state.lossReported)
    && (if s.awaiting || !over then r.out == [] && r.state.lossReported == s.lossReported
        else if KeyframeInFlight(c, s, now) then r.out == [] && !r.state.lossReported
        else r.out == [Lost(Succ(s.last))] && r.state.lossReported)
  }

  /** Held behind a gap. */
  ghost predicate HeldBehind(c: Config, s: State, f: Frame, now: int, all: seq<Held>, r: Step) {
    && Offered(s.held, s.last, Held(f, now), all) && KeptWhatFits(c, all, true, r.state.held)
    && AsksIfOver(c, s, now, OverBounds(c, all), r)
  }

  /** Held before the first keyframe. */
  ghost predicate HeldAtStartup(c: Config, s: State, f: Frame, now: int, all: seq<Held>, r: Step) {
    var base := if s.held == [] then f.seqNo else s.last;
    && Offered(s.held, base, Held(f, now), all) && KeptWhatFits(c, all, false, r.state.held)
    && r.state == s.(held := r.state.held, gapSince := r.state.gapSince, last := base)
    && r.out == []
  }

  ghost predicate DeltaAccounted(c: Config, s: State, f: Frame, now: int, all: seq<Held>, r: Step) {
    if s.haveLast then HeldBehind(c, s, f, now, all, r) else HeldAtStartup(c, s, f, now, all, r)
  }

  lemma {:induction false} BoundKeepsWhatFits(c: Config, all: seq<Held>, anchored: bool)
    ensures KeptWhatFits(c, all, anchored, Bound(c, all, anchored))
    ensures !OverBounds(c, all) ==> Bound(c, all, anchored) == all
  {
    BoundFacts(c, all, anchored);
    BoundIsMaximal(c, all, anchored);
  }

  function Base(s: State, f: Frame): Seq32 {
    if !s.haveLast && s.held == [] then f.seqNo else s.last
  }

  lemma {:induction false} CheckedAsksIfOver(c: Config, s: State, now: int)
    requires Succ(s.last) in s.aborted ==> s.awaiting
    ensures AsksIfOver(c, s, now, OverBounds(c, s.held), Checked(c, s, now))
    ensures Checked(c, s, now).state.held == if OverBounds(c, s.held) then Bound(c, s.held, true) else s.held
  {
  }

  /** Neither the held frames nor the timer decide what is asked. */
  lemma {:induction false} AsksAlike(c: Config, s: State, t: State, now: int, over: bool, r: Step)
    requires AsksIfOver(c, t, now, over, r) && t == s.(held := t.held, gapSince := t.gapSince)
    ensures AsksIfOver(c, s, now, over, r)
  {
  }

  lemma {:induction false} BehindIsAccounted(c: Config, s: State, f: Frame, now: int)
    requires Inv(c, s) && s.haveLast && !Holds(s.held, f.seqNo)
    ensures HeldBehind(c, s, f, now, Place(s.held, s.last, Held(f, now)), HoldBehindGap(c, s, f, now))
  {
    var t := Placed(s, f, now);
    PlaceFacts(s.held, s.last, Held(f, now));
    BoundKeepsWhatFits(c, t.held, true);
    CheckedAsksIfOver(c, t, now);
    AsksAlike(c, s, t, now, OverBounds(c, t.held), Checked(c, t, now));
  }

  lemma {:induction false} StartupIsAccounted(c: Config, s: State, f: Frame, now: int)
    requires Inv(c, s) && !s.haveLast && !Holds(s.held, f.seqNo)
    ensures HeldAtStartup(c, s, f, now, Place(s.held, Base(s, f), Held(f, now)), Step(HoldBeforeKeyframe(c, s, f, now), []))
  {
    var all := Place(s.held, Base(s, f), Held(f, now));
    PlaceFacts(s.held, Base(s, f), Held(f, now));
    BoundKeepsWhatFits(c, all, false);
  }

  lemma {:induction false} DeltaIsAccounted(c: Config, s: State, f: Frame, now: int)
    requires Inv(c, s) && !Repairs(s, f) && !Holds(s.held, f.seqNo)
    requires s.haveLast ==> Newer(f.seqNo, s.last)
    ensures DeltaAccounted(c, s, f, now, Place(s.held, Base(s, f), Held(f, now)), OnFrame(c, s, f, now))
  {
    if s.haveLast {
      BehindIsAccounted(c, s, f, now);
    } else {
      StartupIsAccounted(c, s, f, now);
    }
  }

  // ---- every arrival ----

  /** Behind the chain, or held already and no repair: nothing happens. */
  ghost predicate Ignored(s: State, f: Frame) {
    (s.haveLast && !Newer(f.seqNo, s.last)) || (!Repairs(s, f) && Holds(s.held, f.seqNo))
  }

  ghost predicate Accounted(c: Config, s: State, f: Frame, now: int, r: Step) {
    if Ignored(s, f) then r == Step(s, [])
    else if Repairs(s, f) then exists pool :: RepairAccounted(c, s, f, now, pool, r)
    else exists all :: DeltaAccounted(c, s, f, now, all, r)
  }

  lemma {:induction false} ArrivalIsAccounted(c: Config, s: State, f: Frame, now: int)
    requires Inv(c, s)
    ensures Accounted(c, s, f, now, OnFrame(c, s, f, now))
  {
    if Ignored(s, f) {
    } else if Repairs(s, f) {
      RepairIsAccounted(c, s, f, now);
    } else {
      DeltaIsAccounted(c, s, f, now);
    }
  }

  /**
   After every run, an arrival does exactly this. A frame behind the chain, or a delta held
   already, changes nothing. A keyframe ahead or the frame owed is delivered, with the
   longest unbroken run of the held frames newer than it, in order; the others newer than it
   stay held, everything else is dropped, and aborts and a keyframe in flight are remembered
   as long as they are ahead. Any other delta is held, the buffer giving up its far end (its
   near end before the first keyframe) only as far as it overflows.
   */
  lemma {:induction false} EveryArrivalIsAccountedFor(c: Config, rtt: nat, events: seq<Event>, f: Frame, now: int)
    ensures var s := Run(c, rtt, events).state; Accounted(c, s, f, now, OnFrame(c, s, f, now))
  {
    RunKeeps(c, rtt, events);
    ArrivalIsAccounted(c, Run(c, rtt, events).state, f, now);
  }

  /** The pool, and so the outcome, is unique: two orderings of the same frames by the same distances agree. */
  lemma {:induction false} PoolIsUnique(held: seq<Held>, q: Seq32, a: seq<Held>, b: seq<Held>)
    requires Pool(held, q, a) && Pool(held, q, b)
    ensures a == b
  {
    SameMembersSameOrder(a, b, q);
  }

  lemma {:induction false} SameMembersSameOrder(a: seq<Held>, b: seq<Held>, q: Seq32)
    requires Ordered(a, q) && Ordered(b, q) && forall h :: h in a <==> h in b
    ensures a == b
    decreases |a|
  {
    assert |a| > 0 ==> a[0] in a;
    assert |b| > 0 ==> b[0] in b;
    if a == [] {
    } else {
      assert a[0] in a && a[0] in b;
      assert b[0] in b && b[0] in a;
      FirstIsNearest(a, q, b[0]);
      FirstIsNearest(b, q, a[0]);
      assert a[0] == b[0] by { NearestIsOne(a, q, b[0]); }
      RestHasTheRest(a, q);
      RestHasTheRest(b, q);
      SameMembersSameOrder(a[1..], b[1..], q);
      assert a == [a[0]] + a[1..] && b == [b[0]] + b[1..];
    }
  }

  lemma {:induction false} FirstIsNearest(a: seq<Held>, q: Seq32, h: Held)
    requires Ordered(a, q) && h in a
    ensures Distance(a[0].frame.seqNo, q) <= Distance(h.frame.seqNo, q)
  {
    var i :| 0 <= i < |a| && a[i] == h;
    assert i == 0 || Distance(a[0].frame.seqNo, q) < Distance(a[i].frame.seqNo, q);
  }

  lemma {:induction false} NearestIsOne(a: seq<Held>, q: Seq32, h: Held)
    requires Ordered(a, q) && h in a && Distance(h.frame.seqNo, q) <= Distance(a[0].frame.seqNo, q)
    ensures h == a[0]
  {
    assert forall j :: 0 < j < |a| ==> Distance(a[0].frame.seqNo, q) < Distance(a[j].frame.seqNo, q);
  }

  lemma {:induction false} RestHasTheRest(a: seq<Held>, q: Seq32)
    requires Ordered(a, q) && a != []
    ensures Ordered(a[1..], q) && forall h :: h in a[1..] <==> h in a && h != a[0]
  {
    var rest := a[1..];
    assert a == [a[0]] + rest;
    forall i | 0 <= i < |rest|
      ensures rest[i] != a[0]
    {
      assert rest[i] == a[i + 1];
      assert Distance(a[0].frame.seqNo, q) < Distance(a[i + 1].frame.seqNo, q);
    }
  }
}
