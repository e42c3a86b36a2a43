/**
 The reorder buffer as it is built: held frames in an ordered map keyed by their distance
 from a base that moves, a running byte count, and flags updated in place. Every method is
 proved to do exactly what `FrameReorder` says and to leave keys, order, byte count, bounds
 and the invariant of the runs intact.
 */
module ReorderBuffer {
  import opened Basics
  import opened SequenceNumbers
  import opened FrameReorder
  import opened ReorderHeld
  import opened ReorderSafety
  import HeldMap

  /** Held frames ready to be drained behind frame `q`: deltas, newer than it, in order from it. */
  ghost predicate Behind(held: seq<Held>, q: Seq32) {
    Ordered(held, q) && AheadOf(held, q)
  }

  ghost predicate AheadOf(held: seq<Held>, base: Seq32) {
    forall h :: h in held ==> !h.frame.keyframe && Newer(h.frame.seqNo, base)
  }

  class VideoFrameReorderBuffer {
    const cfg: Config
    var rtt: nat
    var haveLast: bool
    var awaiting: bool
    var lossReported: bool
    var lastDelivered: Seq32
    var heldKeys: seq<int>
    var held: seq<Held>
    var heldBytes: nat
    var gapSince: int
    var inflight: Option<InFlight>
    var aborted: seq<Seq32>

    /** The buffer without its keys and byte count. */
    ghost function Abs(): State
      reads this
    {
      State(haveLast, awaiting, lossReported, lastDelivered, held, gapSince, inflight, aborted, rtt)
    }

    /** Exact keys in ascending order and an exact byte count. */
    ghost predicate Keyed()
      reads this
    {
      HeldMap.Sound(heldKeys, held, lastDelivered, heldBytes)
    }

    /** What every call keeps. */
    ghost predicate Valid()
      reads this
    {
      Keyed() && Inv(cfg, Abs())
    }

    constructor (c: Config)
      ensures Valid() && cfg == Normalize(c) && Abs() == Fresh(0)
    {
      cfg := Normalize(c);
      rtt := 0;
      haveLast, awaiting, lossReported := false, true, false;
      lastDelivered := 0;
      heldKeys, held, heldBytes, gapSince := [], [], 0, 0;
      inflight, aborted := None, [];
    }

    method Reset()
      modifies this
      ensures Valid() && Abs() == Fresh(rtt) && rtt == old(rtt)
    {
      FreshIsValid(cfg, rtt);
      haveLast, awaiting, lossReported := false, true, false;
      lastDelivered := 0;
      heldKeys, held, heldBytes, gapSince := [], [], 0, 0;
      inflight, aborted := None, [];
    }

    method SetRtt(r: nat)
      requires Valid()
      modifies this
      ensures Valid() && Abs() == old(Abs()).(rtt := r)
    {
      rtt := r;
    }

    // ---- recovery ----

    method ReportLoss() returns (out: seq<Output>)
      modifies `lossReported
      ensures Step(Abs(), out) == FrameReorder.ReportLoss(old(Abs()))
    {
      out := [];
      if lossReported || !awaiting { return; }
      lossReported := true;
      out := [Lost(Succ(lastDelivered))];
    }

    method RequireKeyframe(now: int) returns (out: seq<Output>)
      modifies `awaiting, `lossReported
      ensures Step(Abs(), out) == FrameReorder.RequireKeyframe(cfg, old(Abs()), now)
    {
      out := [];
      if awaiting { return; }
      awaiting := true;
      lossReported := false;
      var arriving := KeyframeArriving(now);
      if !arriving {
        out := ReportLoss();
      }
    }

    /** Is a keyframe on its way that can still be trusted to complete? */
    method KeyframeArriving(now: int) returns (b: bool)
      ensures b == KeyframeInFlight(cfg, Abs(), now)
    {
      if inflight.None? { return false; }
      var trust := Max(4 * HoldUs(cfg, rtt), 2_000_000);
      return now - inflight.value.since < trust;
    }

    // ---- bounding, delivering, draining ----

    method BoundHeld()
      requires Keyed()
      modifies `heldKeys, `held, `heldBytes, `gapSince
      ensures Keyed()
      ensures held == Bound(cfg, old(held), haveLast) && gapSince == Earliest(held)
    {
      heldKeys, held, heldBytes := HeldMap.EraseOverflow(cfg, heldKeys, held, lastDelivered, heldBytes, haveLast);
      gapSince := HeldMap.EarliestArrival(held);
    }

    method DeliverOne(f: Frame) returns (out: seq<Output>)
      modifies `inflight
      ensures out == [Deliver(f)]
      ensures Abs() == old(Abs()).(inflight := ForgetThrough(old(Abs()).inflight, f.seqNo))
    {
      if inflight.Some? && !Newer(inflight.value.seqNo, f.seqNo) {
        inflight := None;
      }
      out := [Deliver(f)];
    }

    /** Takes the first held frame out and delivers it. */
    method ReleaseFirst() returns (out: seq<Output>)
      requires |heldKeys| == |held| && heldBytes == Bytes(held) && held != []
      modifies `heldKeys, `held, `heldBytes, `lastDelivered, `inflight
      ensures |heldKeys| == |held| && heldBytes == Bytes(held)
      ensures out == [Deliver(old(held)[0].frame)]
      ensures Abs() == Advance(old(Abs()).(held := old(held)[1..]), old(held)[0].frame)
    {
      var h := held[0];
      heldKeys, held := heldKeys[1..], held[1..];
      heldBytes := heldBytes - |h.frame.data|;
      lastDelivered := h.frame.seqNo;
      out := DeliverOne(h.frame);
    }

    /**
     The loop of `drain`. The base moves while the keys stay what they were: nothing here
     looks at a key, and the frames are taken in the order the keys had.
     */
    method ReleaseHeld() returns (out: seq<Output>)
      requires |heldKeys| == |held| && heldBytes == Bytes(held)
      modifies `heldKeys, `held, `heldBytes, `lastDelivered, `inflight
      ensures |heldKeys| == |held| && heldBytes == Bytes(held)
      ensures Step(Abs(), out) == Release(old(Abs()))
    {
      out := [];
      ghost var s0 := Abs();
      assert out + Release(s0).out == Release(s0).out;
      while held != [] && held[0].frame.seqNo == Succ(lastDelivered)
        invariant |heldKeys| == |held| && heldBytes == Bytes(held)
        invariant Continues(s0, Abs(), out)
        decreases |held|
      {
        ghost var s := Abs();
        var o := ReleaseFirst();
        OneMore(s0, s, Abs(), out);
        out := out + o;
      }
    }

    /** Releases what can be released, then keys what is left by distance from the new base. */
    method Drain(now: int) returns (out: seq<Output>)
      requires Shape(Abs(), 1) && haveLast && |heldKeys| == |held| && heldBytes == Bytes(held)
      modifies this
      ensures Keyed()
      ensures Step(Abs(), out) == FrameReorder.Drain(cfg, old(Abs()), now)
    {
      DrainKeepsOrder(Abs());
      out := ReleaseHeld();
      RekeyHeld();
      var o := SettleHeld(now);
      out := out + o;
    }

    /** Re-keying cannot reorder the frames that are left: their order is not stale. */
    method RekeyHeld()
      requires Ordered(held, lastDelivered) && heldBytes == Bytes(held)
      modifies `heldKeys, `held
      ensures held == old(held) && Keyed()
    {
      Distinct(held, lastDelivered);
      RebaseOrdered(held, lastDelivered);
      heldKeys, held := HeldMap.Rekey(held, lastDelivered);
    }

    method SettleHeld(now: int) returns (out: seq<Output>)
      requires Keyed()
      modifies `gapSince, `aborted, `awaiting, `lossReported
      ensures Keyed()
      ensures Step(Abs(), out) == Settle(cfg, old(Abs()), now)
    {
      gapSince := HeldMap.EarliestArrival(held);
      aborted := KeepAhead(aborted, lastDelivered);
      out := [];
      if Succ(lastDelivered) in aborted {
        out := RequireKeyframe(now);
      }
    }

    /** Delivers `f` at once, then drains. */
    method Resume(f: Frame, now: int) returns (out: seq<Output>)
      requires |heldKeys| == |held| && heldBytes == Bytes(held)
      requires haveLast && inflight.Some? ==> Newer(inflight.value.seqNo, lastDelivered)
      requires Behind(held, f.seqNo)
      modifies this
      ensures Keyed()
      ensures Step(Abs(), out) == FrameReorder.Resume(cfg, old(Abs()), f, now)
    {
      ForgetKeepsAhead(Abs(), f.seqNo);
      haveLast, awaiting, lossReported, lastDelivered := true, false, false, f.seqNo;
      out := DeliverOne(f);
      var o := Drain(now);
      out := out + o;
    }

    // ---- the entry points ----

    method OnFrameStarted(q: Seq32, keyframe: bool, now: int)
      requires Valid()
      modifies this
      ensures Valid() && Abs() == OnStarted(old(Abs()), q, keyframe, now)
    {
      if !keyframe { return; }
      if haveLast && !Newer(q, lastDelivered) { return; }
      if inflight.None? || Newer(q, inflight.value.seqNo) {
        inflight := Some(InFlight(q, now));
      }
    }

    /** A complete frame arrived. */
    method OnFrame(f: Frame, now: int) returns (out: seq<Output>)
      requires Valid()
      modifies this
      ensures Valid()
      ensures Step(Abs(), out) == FrameReorder.OnFrame(cfg, old(Abs()), f, now)
    {
      OnFrameKeepsInv(cfg, Abs(), f, now);
      out := [];
      if haveLast && !Newer(f.seqNo, lastDelivered) { return; }
      if !haveLast {
        if !f.keyframe {
          HoldStartup(f, now);
        } else {
          out := AnchorAt(f, now);
        }
      } else if f.seqNo == Succ(lastDelivered) {
        OwedIsBefore(Abs(), f.seqNo);
        out := Resume(f, now);
      } else if f.keyframe {
        out := ResumeAtKeyframe(f, now);
      } else {
        out := HoldDelta(f, now);
      }
    }

    method HoldStartup(f: Frame, now: int)
      requires Keyed()
      modifies this
      ensures Keyed()
      ensures !old(haveLast) ==> Abs() == HoldBeforeKeyframe(cfg, old(Abs()), f, now)
    {
      if held == [] { lastDelivered := f.seqNo; }
      var added;
      added, heldKeys, held, heldBytes := HeldMap.Insert(heldKeys, held, lastDelivered, heldBytes, Held(f, now));
      if !added { return; }
      BoundHeld();
    }

    /** The first keyframe anchors the buffer; held frames are re-keyed against it. */
    method AnchorAt(f: Frame, now: int) returns (out: seq<Output>)
      requires Keyed() && !haveLast
      requires forall h :: h in held ==> !h.frame.keyframe
      modifies this
      ensures Keyed()
      ensures Step(Abs(), out) == FrameReorder.Resume(cfg,
        old(Abs()).(held := Rebase(KeepNewer(old(held), f.seqNo), f.seqNo), aborted := []), f, now)
    {
      ghost var s := Abs().(held := Rebase(KeepNewer(held, f.seqNo), f.seqNo), aborted := []);
      heldKeys, held, heldBytes := Survivors(heldKeys, held, lastDelivered, heldBytes, f.seqNo);
      aborted := [];
      assert Abs() == s;
      out := Resume(f, now);
    }

    /** A keyframe over a gap: everything up to its key goes, by key. */
    method ResumeAtKeyframe(f: Frame, now: int) returns (out: seq<Output>)
      requires Keyed() && haveLast && Newer(f.seqNo, lastDelivered)
      requires Shape(Abs(), 2)
      modifies this
      ensures Keyed()
      ensures Step(Abs(), out) ==
        FrameReorder.Resume(cfg, old(Abs()).(held := KeepNewer(old(held), f.seqNo)), f, now)
    {
      AllAhead(Abs());
      ghost var s := Abs().(held := KeepNewer(held, f.seqNo));
      heldKeys, held, heldBytes := KeysBeyond(heldKeys, held, lastDelivered, heldBytes, f.seqNo);
      assert Abs() == s;
      out := Resume(f, now);
    }

    method HoldDelta(f: Frame, now: int) returns (out: seq<Output>)
      requires Keyed() && haveLast
      modifies this
      ensures Keyed()
      ensures Step(Abs(), out) == HoldBehindGap(cfg, old(Abs()), f, now)
    {
      out := [];
      var first := held == [];
      var added;
      added, heldKeys, held, heldBytes := HeldMap.Insert(heldKeys, held, lastDelivered, heldBytes, Held(f, now));
      if !added { return; }
      if first { gapSince := now; }
      assert Abs() == Placed(old(Abs()), f, now);
      out := CheckHeld(now);
    }

    /** After a delta was held: bounds first, then the abort of the frame owed. */
    method CheckHeld(now: int) returns (out: seq<Output>)
      requires Keyed() && haveLast
      modifies this
      ensures Keyed()
      ensures Step(Abs(), out) == Checked(cfg, old(Abs()), now)
    {
      out := [];
      if |held| > cfg.maxHeldFrames || heldBytes > cfg.maxBytes {
        out := RequireKeyframe(now);
        BoundHeld();
      } else if Succ(lastDelivered) in aborted {
        out := RequireKeyframe(now);
      }
    }

    /** The stream carrying frame `q` was aborted. */
    method OnFrameAborted(q: Seq32, now: int) returns (out: seq<Output>)
      requires Valid()
      modifies this
      ensures Valid()
      ensures Step(Abs(), out) == OnAborted(cfg, old(Abs()), q, now)
    {
      OnAbortedKeepsInv(cfg, Abs(), q, now);
      out := [];
      var lostKey := inflight.Some? && q == inflight.value.seqNo;
      if lostKey { inflight := None; }
      if !haveLast { return; }
      if q == Succ(lastDelivered) {
        out := LoseOwed(lostKey, now);
        return;
      }
      if !Newer(q, lastDelivered) { return; }
      if lostKey && awaiting {
        out := ReportLoss();
      }
      NoteAbort(q);
    }

    /** The frame owed is gone. */
    method LoseOwed(lostKey: bool, now: int) returns (out: seq<Output>)
      modifies `awaiting, `lossReported
      ensures Step(Abs(), out) == AbortOwed(cfg, old(Abs()), lostKey, now)
    {
      out := RequireKeyframe(now);
      if lostKey {
        var o := ReportLoss();
        out := out + o;
      }
    }

    method NoteAbort(q: Seq32)
      requires Keyed()
      modifies `heldKeys, `held, `heldBytes, `gapSince, `aborted
      ensures Keyed()
      ensures Abs() == RememberAbort(old(Abs()), q)
    {
      var found;
      found, heldKeys, held, heldBytes := HeldMap.EraseFrame(heldKeys, held, lastDelivered, heldBytes, q);
      if found {
        gapSince := HeldMap.EarliestArrival(held);
      } else if q !in aborted {
        if |aborted| >= MAX_ABORTED_TRACKED { aborted := aborted[1..]; }
        aborted := aborted + [q];
      }
    }

    /** The timer. */
    method Poll(now: int) returns (out: seq<Output>)
      requires Valid()
      modifies this
      ensures Valid()
      ensures Step(Abs(), out) == OnPoll(cfg, old(Abs()), now)
    {
      OnPollKeepsInv(cfg, Abs(), now);
      out := [];
      if !haveLast {
        DropExpired(now);
      } else if awaiting {
        var arriving := KeyframeArriving(now);
        if !lossReported && !arriving {
          out := ReportLoss();
        }
      } else if held != [] && now - gapSince >= HoldUs(cfg, rtt) {
        out := RequireKeyframe(now);
      }
    }

    /** Before the first keyframe a delta is only kept for the hold. */
    method DropExpired(now: int)
      requires Keyed()
      modifies `heldKeys, `held, `heldBytes, `gapSince
      ensures Keyed()
      ensures held == KeepFresh(old(held), now, HoldUs(cfg, rtt)) && gapSince == Earliest(held)
    {
      heldKeys, held, heldBytes :=
        HeldMap.EraseExpired(heldKeys, held, lastDelivered, heldBytes, now, HoldUs(cfg, rtt));
      gapSince := HeldMap.EarliestArrival(held);
    }
  }

  /** Releasing from `s0` is what was delivered so far, then releasing from `s`. */
  ghost predicate Continues(s0: State, s: State, out: seq<Output>) {
    Release(s0) == Step(Release(s).state, out + Release(s).out)
  }

  lemma {:induction false} OneMore(s0: State, s: State, t: State, out: seq<Output>)
    requires Continues(s0, s, out) && s.held != [] && s.held[0].frame.seqNo == Succ(s.last)
    requires t == Advance(s.(held := s.held[1..]), s.held[0].frame)
    ensures Continues(s0, t, out + [Deliver(s.held[0].frame)])
  {
    Regroup(out, [Deliver(s.held[0].frame)], Release(t).out);
  }

  /** Behind the frame owed, everything held stays in order. */
  lemma {:induction false} OwedIsBefore(s: State, q: Seq32)
    requires Shape(s, 2) && s.haveLast && q == Succ(s.last)
    ensures Behind(s.held, q)
  {
    OrderedFrom(s.held, s.last, q);
  }

  lemma {:induction false} AllAhead(s: State)
    requires Shape(s, 2) && s.haveLast
    ensures AheadOf(s.held, s.last)
  {
  }

  lemma {:induction false} FreshIsValid(c: Config, rtt: nat)
    ensures Inv(c, Fresh(rtt))
  {
  }

  /** What is left when the first keyframe has dropped everything not newer than it. */
  lemma {:induction false} SurvivorsOfAnchor(held: seq<Held>, base: Seq32, q: Seq32)
    requires Ordered(held, base) && forall h :: h in held ==> !h.frame.keyframe
    ensures var left := KeepNewer(held, q); var r := Rebase(left, q);
      && (forall i, j :: 0 <= i < j < |left| ==> left[i].frame.seqNo != left[j].frame.seqNo)
      && Ordered(r, q) && Bytes(r) == Bytes(left)
      && (forall h :: h in r ==> !h.frame.keyframe && Newer(h.frame.seqNo, q))
  {
    var left := KeepNewer(held, q);
    KeepNewerFacts(held, q);
    LeftFacts(left, held, base);
    Distinct(left, base);
    RebaseFacts(left, q);
  }

  /** Drops what is not newer than the first keyframe and re-keys the rest against it. */
  method Survivors(keys: seq<int>, held: seq<Held>, base: Seq32, bytes: nat, q: Seq32)
    returns (keys': seq<int>, held': seq<Held>, bytes': nat)
    requires HeldMap.Sound(keys, held, base, bytes)
    requires forall h :: h in held ==> !h.frame.keyframe
    ensures held' == Rebase(KeepNewer(held, q), q)
    ensures |keys'| == |held'| && bytes' == Bytes(held') && Behind(held', q)
  {
    SurvivorsOfAnchor(held, base, q);
    keys', held', bytes' := HeldMap.EraseThrough(keys, held, base, bytes, q);
    keys', held' := HeldMap.Rekey(held', q);
  }

  /** Drops every node up to the key of a keyframe ahead: by key, and yet exactly the frames not newer than it. */
  method KeysBeyond(keys: seq<int>, held: seq<Held>, base: Seq32, bytes: nat, q: Seq32)
    returns (keys': seq<int>, held': seq<Held>, bytes': nat)
    requires HeldMap.Sound(keys, held, base, bytes) && Newer(q, base)
    requires AheadOf(held, base)
    ensures held' == KeepNewer(held, q)
    ensures |keys'| == |held'| && bytes' == Bytes(held') && Behind(held', q)
  {
    var end := HeldMap.LowerBound(keys, held, base, Distance(q, base) + 1);
    KeyOrderIsNewness(keys, held, base, q, end);
    keys', held', bytes' := HeldMap.ErasePrefix(keys, held, bytes, end);
  }

  /** Ahead of the base, key order is newness: the nodes up to a keyframe's key are the ones it replaces. */
  lemma {:induction false} KeyOrderIsNewness(keys: seq<int>, held: seq<Held>, base: Seq32, q: Seq32, end: nat)
    requires HeldMap.Keyed(keys, held, base) && Ordered(held, base) && Newer(q, base)
    requires AheadOf(held, base)
    requires end <= |held|
    requires forall j :: 0 <= j < end ==> keys[j] < Distance(q, base) + 1
    requires forall j :: end <= j < |keys| ==> keys[j] >= Distance(q, base) + 1
    ensures KeepNewer(held, q) == held[end..]
    ensures Ordered(held[end..], q)
    ensures forall h :: h in held[end..] ==> h in held && Newer(h.frame.seqNo, q)
  {
    forall i | 0 <= i < |held|
      ensures Newer(held[i].frame.seqNo, q) <==> i >= end
    {
      assert held[i] in held && keys[i] == Distance(held[i].frame.seqNo, base);
    }
    HeldMap.KeepNewerIsSuffix(held, q, end);
    KeepNewerFacts(held, q);
    LeftFacts(held[end..], held, base);
    OrderedFrom(held[end..], base, q);
  }

  /** The frames left after a drain are in order from the new base. */
  lemma {:induction false} DrainKeepsOrder(s: State)
    requires Shape(s, 1) && s.haveLast
    ensures Ordered(Release(s).state.held, Release(s).state.last)
    decreases |s.held|
  {
    if s.held == [] || s.held[0].frame.seqNo != Succ(s.last) {
    } else {
      ReleaseShape(s);
      DrainKeepsOrder(Advance(s.(held := s.held[1..]), s.held[0].frame));
    }
  }
}
