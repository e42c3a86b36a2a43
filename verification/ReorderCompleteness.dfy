/**
 The reorder buffer against the simplest description of its job: when one keyframe and its
 deltas all arrive, in any order and any number of times, what has been delivered after
 each arrival is the longest unbroken run that starts at the keyframe.
 */
module ReorderCompleteness {
  import opened Basics
  import opened SequenceNumbers
  import opened FrameReorder
  import opened ReorderHeld
  import opened ReorderSafety

  function DataBytes(frames: seq<Frame>): nat {
    if frames == [] then 0 else |frames[0].data| + DataBytes(frames[1..])
  }

  /** A keyframe and its deltas, numbered in order, possibly across the wrap. */
  ghost predicate Chain(frames: seq<Frame>) {
    && 1 <= |frames| <= HALF32
    && frames[0].keyframe
    && (forall i :: 0 < i < |frames| ==> !frames[i].keyframe)
    && Numbered(frames)
  }

  ghost predicate Numbered(frames: seq<Frame>)
    requires 1 <= |frames| <= HALF32
  {
    forall i :: 0 <= i < |frames| ==> frames[i].seqNo == Plus(frames[0].seqNo, i)
  }

  ghost predicate HasArrived(events: seq<Event>, f: Frame) {
    exists j :: 0 <= j < |events| && events[j].Arrived? && events[j].frame == f
  }

  ghost function Offsets(frames: seq<Frame>, events: seq<Event>): set<int> {
    set i | 0 <= i < |frames| && HasArrived(events, frames[i])
  }

  /** The first offset from `j` on that is not in `a`. */
  ghost function RunEnd(a: set<int>, j: nat, n: nat): (e: nat)
    requires j <= n
    ensures j <= e <= n
    ensures forall i :: j <= i < e ==> i in a
    ensures e < n ==> e !in a
    decreases n - j
  {
    if j == n || j !in a then j else RunEnd(a, j + 1, n)
  }

  /** The longest unbroken run of the chain that has arrived. */
  ghost function LongestRun(frames: seq<Frame>, events: seq<Event>): (e: nat)
    ensures e <= |frames|
    ensures forall i :: 0 <= i < e ==> HasArrived(events, frames[i])
    ensures e < |frames| ==> !HasArrived(events, frames[e])
  {
    var e := RunEnd(Offsets(frames, events), 0, |frames|);
    assert forall i :: 0 <= i < e ==> HasArrived(events, frames[i]) by {
      forall i | 0 <= i < e
        ensures HasArrived(events, frames[i])
      {
        assert i in Offsets(frames, events);
      }
    }
    e
  }

  // ---- an undisturbed run ----

  /** The frames of the chain from `from` on that are in `a`. */
  ghost function Waiting(frames: seq<Frame>, a: set<int>, from: nat): seq<Frame>
    decreases |frames| - from
  {
    if from >= |frames| then []
    else (if from in a then [frames[from]] else []) + Waiting(frames, a, from + 1)
  }

  /** What has arrived and cannot be delivered yet is within the buffer's bounds. */
  ghost predicate Fitting(c: Config, frames: seq<Frame>, a: set<int>) {
    var waiting := Waiting(frames, a, RunEnd(a, 0, |frames|));
    |waiting| <= c.maxHeldFrames && DataBytes(waiting) <= c.maxBytes
  }

  /** Event `j` brought frame `f` for the first time, at time `t`. */
  ghost predicate FirstArrival(events: seq<Event>, j: int, f: Frame, t: int) {
    0 <= j < |events| && events[j] == Arrived(f, t) && !HasArrived(events[..j], f)
  }

  /** `f` is a frame of the chain behind the run that has arrived. */
  ghost predicate StillWaiting(frames: seq<Frame>, events: seq<Event>, f: Frame) {
    exists i :: LongestRun(frames, events) <= i < |frames| && f == frames[i]
  }

  /** At event `p`, if it is a poll, every frame still waiting has waited for less than the hold. */
  ghost predicate PollInTime(c: Config, rtt: nat, frames: seq<Frame>, events: seq<Event>, p: int)
    requires 0 <= p < |events|
  {
    events[p].Poll? ==>
      forall j, f, t :: FirstArrival(events[..p], j, f, t) && StillWaiting(frames, events[..p], f) ==>
        events[p].now - t < HoldUs(c, Run(c, rtt, events[..p]).state.rtt)
  }

  /**
   Only frames of the chain arrive, none is aborted, what waits behind a gap always fits,
   and no poll finds a frame that has waited too long.
   */
  ghost predicate Undisturbed(c: Config, rtt: nat, frames: seq<Frame>, events: seq<Event>) {
    && (forall j :: 0 <= j < |events| ==> !events[j].Aborted?)
    && (forall j :: 0 <= j < |events| && events[j].Arrived? ==> events[j].frame in frames)
    && (forall p :: 0 <= p <= |events| ==> Fitting(c, frames, Offsets(frames, events[..p])))
    && (forall p :: 0 <= p < |events| ==> PollInTime(c, rtt, frames, events, p))
  }

  function Delivers(frames: seq<Frame>): (r: seq<Output>)
    ensures |r| == |frames|
    ensures forall i :: 0 <= i < |r| ==> r[i] == Deliver(frames[i])
  {
    seq(|frames|, i requires 0 <= i < |frames| => Deliver(frames[i]))
  }

  // ---- the state that goes with a set of arrivals ----

  /** `h` is frame number `off` of the chain. */
  ghost predicate IsFrame(frames: seq<Frame>, h: Held, off: int) {
    0 <= off < |frames| && h.frame == frames[off]
  }

  function Off(frames: seq<Frame>, h: Held): int
    requires frames != []
  {
    Distance(h.frame.seqNo, frames[0].seqNo)
  }

  /** The held frames are exactly the arrivals from `from` on. */
  ghost predicate Buffers(frames: seq<Frame>, held: seq<Held>, a: set<int>, from: nat)
    requires frames != []
  {
    && Ordered(held, frames[0].seqNo)
    && (forall h :: h in held ==> Off(frames, h) in a && from <= Off(frames, h) && IsFrame(frames, h, Off(frames, h)))
    && (forall i :: i in a && from <= i < |frames| ==> Holds(held, frames[i].seqNo))
  }

  /** The state after the arrivals `a`, with frames `0 .. e` already delivered. */
  ghost predicate Tracks(frames: seq<Frame>, s: State, a: set<int>, e: nat)
    requires 0 < |frames| && e <= |frames|
  {
    && (s.haveLast <==> e > 0)
    && (s.awaiting <==> e == 0)
    && !s.lossReported
    && s.aborted == []
    && (e > 0 ==> s.last == frames[e - 1].seqNo)
    && (e == 0 && s.held != [] ==> exists b :: 0 < b < |frames| && s.last == frames[b].seqNo)
    && Buffers(frames, s.held, a, Max(e, 1))
  }

  /** What is held is no more than what waits. */
  lemma {:induction false} Fits(frames: seq<Frame>, held: seq<Held>, a: set<int>, from: nat)
    requires 0 < from <= |frames| <= HALF32 && Numbered(frames)
    requires Ordered(held, frames[0].seqNo)
    requires forall i :: 0 <= i < |held| ==> Off(frames, held[i]) in a
    requires forall i :: 0 <= i < |held| ==>
      from <= Off(frames, held[i]) && IsFrame(frames, held[i], Off(frames, held[i]))
    ensures |held| <= |Waiting(frames, a, from)|
    ensures Bytes(held) <= DataBytes(Waiting(frames, a, from))
    decreases |frames| - from
  {
    if held == [] {
    } else if Off(frames, held[0]) == from {
      var rest := held[1..];
      forall i | 0 <= i < |rest|
        ensures from + 1 <= Off(frames, rest[i]) && IsFrame(frames, rest[i], Off(frames, rest[i]))
        ensures Off(frames, rest[i]) in a
      {
        assert rest[i] == held[i + 1];
        assert Off(frames, held[0]) < Off(frames, held[i + 1]);
      }
      Fits(frames, rest, a, from + 1);
      assert Waiting(frames, a, from)[1..] == Waiting(frames, a, from + 1);
    } else {
      forall i | 0 <= i < |held|
        ensures from + 1 <= Off(frames, held[i])
      {
        if i > 0 { assert Off(frames, held[0]) < Off(frames, held[i]); }
      }
      Fits(frames, held, a, from + 1);
      WaitingShrinks(frames, a, from);
    }
  }

  lemma {:induction false} WaitingShrinks(frames: seq<Frame>, a: set<int>, from: nat)
    requires from < |frames|
    ensures |Waiting(frames, a, from + 1)| <= |Waiting(frames, a, from)|
    ensures DataBytes(Waiting(frames, a, from + 1)) <= DataBytes(Waiting(frames, a, from))
  {
    if from in a {
      assert Waiting(frames, a, from)[1..] == Waiting(frames, a, from + 1);
    } else {
      assert Waiting(frames, a, from) == Waiting(frames, a, from + 1);
    }
  }

  lemma {:induction false} NeverOver(c: Config, frames: seq<Frame>, held: seq<Held>, a: set<int>, e: nat)
    requires Chain(frames) && e == RunEnd(a, 0, |frames|) && Buffers(frames, held, a, Max(e, 1))
    requires Fitting(c, frames, a)
    ensures !OverBounds(c, held)
  {
    forall i | 0 <= i < |held|
      ensures Off(frames, held[i]) in a
      ensures Max(e, 1) <= Off(frames, held[i]) && IsFrame(frames, held[i], Off(frames, held[i]))
    {
      assert held[i] in held;
    }
    Fits(frames, held, a, Max(e, 1));
    if e == 0 { WaitingShrinks(frames, a, 0); }
  }

  // ---- holding one more delta ----

  lemma {:induction false} NotHeldYet(c: Config, frames: seq<Frame>, held: seq<Held>, a: set<int>, from: nat, i: nat)
    requires Chain(frames) && i < |frames| && Buffers(frames, held, a, from) && i !in a
    ensures !Holds(held, frames[i].seqNo)
  {
    forall j | 0 <= j < |held|
      ensures held[j].frame.seqNo != frames[i].seqNo
    {
      assert held[j] in held;
      assert Distance(frames[i].seqNo, frames[0].seqNo) == i;
    }
  }

  lemma {:induction false} PlaceBuffers(c: Config, frames: seq<Frame>, held: seq<Held>, a: set<int>, from: nat, i: nat, base: Seq32, now: int)
    requires Chain(frames) && 1 <= from <= i < |frames| && Buffers(frames, held, a, from) && i !in a
    requires exists b :: 0 <= b < |frames| && base == frames[b].seqNo
    ensures Buffers(frames, Place(held, base, Held(frames[i], now)), a + {i}, from)
  {
    var h := Held(frames[i], now);
    NotHeldYet(c, frames, held, a, from, i);
    var b :| 0 <= b < |frames| && base == frames[b].seqNo;
    SameOrder(frames, held, b);
    PlaceFacts(held, base, h);
    var p := Place(held, base, h);
    assert Off(frames, h) == i;
    SameOrder(frames, p, b);
    StillHolds(held, p, h, frames, a, from, i);
  }

  lemma {:induction false} StillHolds(held: seq<Held>, p: seq<Held>, h: Held, frames: seq<Frame>, a: set<int>, from: nat, i: nat)
    requires i < |frames| && h.frame == frames[i]
    requires forall x :: x in p <==> x == h || x in held
    requires forall o :: o in a && from <= o < |frames| ==> Holds(held, frames[o].seqNo)
    ensures forall o :: o in a + {i} && from <= o < |frames| ==> Holds(p, frames[o].seqNo)
  {
    forall o | o in a + {i} && from <= o < |frames|
      ensures Holds(p, frames[o].seqNo)
    {
      if o == i {
        assert h in p;
      } else {
        var j :| 0 <= j < |held| && held[j].frame.seqNo == frames[o].seqNo;
        assert held[j] in p;
      }
    }
  }

  /** Seen from any frame of the chain, distances differ by a constant. */
  lemma {:induction false} OffsetsShift(frames: seq<Frame>, h: Held, b: nat)
    requires 1 <= |frames| <= HALF32 && Numbered(frames) && b < |frames|
    requires IsFrame(frames, h, Off(frames, h))
    ensures Distance(h.frame.seqNo, frames[b].seqNo) == Off(frames, h) - b
  {
    assert frames[b].seqNo == Plus(frames[0].seqNo, b);
  }

  /** Any frame of the chain serves as a base: the order is the same. */
  lemma {:induction false} SameOrder(frames: seq<Frame>, held: seq<Held>, b: nat)
    requires 1 <= |frames| <= HALF32 && Numbered(frames) && b < |frames|
    requires forall h :: h in held ==> IsFrame(frames, h, Off(frames, h))
    ensures Ordered(held, frames[0].seqNo) <==> Ordered(held, frames[b].seqNo)
  {
    forall i | 0 <= i < |held|
      ensures Distance(held[i].frame.seqNo, frames[b].seqNo) == Distance(held[i].frame.seqNo, frames[0].seqNo) - b
    {
      assert held[i] in held;
      OffsetsShift(frames, held[i], b);
    }
  }

  // ---- releasing a run ----

  /** The frame owed is held exactly when it is the first one held. */
  lemma {:induction false} FirstOrAbsent(c: Config, frames: seq<Frame>, held: seq<Held>, a: set<int>, e: nat)
    requires Chain(frames) && 1 <= e <= |frames| && Buffers(frames, held, a, e)
    ensures (e < |frames| && e in a) <==> held != [] && held[0].frame.seqNo == Succ(frames[e - 1].seqNo)
    ensures e < |frames| && e in a ==> held[0].frame == frames[e]
  {
    if e < |frames| && e in a {
      var j :| 0 <= j < |held| && held[j].frame.seqNo == frames[e].seqNo;
      assert held[0] in held;
      assert Off(frames, held[j]) == e <= Off(frames, held[0]);
    }
    if held != [] { assert held[0] in held; }
  }

  lemma {:induction false} DeliversFrom(frames: seq<Frame>, e: nat, n: nat)
    requires e < n <= |frames|
    ensures Delivers(frames[e..n]) == [Deliver(frames[e])] + Delivers(frames[e + 1..n])
  {
  }

  /** Releasing from `s` delivers the run from `e` on and leaves the rest. */
  ghost predicate ReleasesTheRun(frames: seq<Frame>, s: State, a: set<int>, e: nat)
    requires 0 < |frames| && e <= |frames|
  {
    var n := RunEnd(a, e, |frames|);
    Release(s).out == Delivers(frames[e..n]) && Tracks(frames, Release(s).state, a, n)
  }

  lemma {:induction false} RunReleasedFirst(frames: seq<Frame>, s: State, a: set<int>, e: nat)
    requires e < |frames| && e in a
    requires s.held != [] && s.held[0].frame == frames[e] && frames[e].seqNo == Succ(s.last)
    requires ReleasesTheRun(frames, Advance(s.(held := s.held[1..]), frames[e]), a, e + 1)
    ensures ReleasesTheRun(frames, s, a, e)
  {
    var t := Advance(s.(held := s.held[1..]), frames[e]);
    assert Release(s) == Step(Release(t).state, [Deliver(frames[e])] + Release(t).out);
    DeliversFrom(frames, e, RunEnd(a, e, |frames|));
  }

  lemma {:induction false} ReleaseTracks(c: Config, frames: seq<Frame>, s: State, a: set<int>, e: nat)
    requires Chain(frames) && 1 <= e <= |frames| && Tracks(frames, s, a, e)
    ensures ReleasesTheRun(frames, s, a, e)
    decreases |s.held|
  {
    FirstOrAbsent(c, frames, s.held, a, e);
    if e == |frames| || e !in a {
      assert Release(s) == Step(s, []) && frames[e..e] == [];
    } else {
      ReleaseOneTracks(c, frames, s, a, e);
      ReleaseTracks(c, frames, Advance(s.(held := s.held[1..]), frames[e]), a, e + 1);
      RunReleasedFirst(frames, s, a, e);
    }
  }

  lemma {:induction false} ReleaseOneTracks(c: Config, frames: seq<Frame>, s: State, a: set<int>, e: nat)
    requires Chain(frames) && 1 <= e < |frames| && Tracks(frames, s, a, e) && e in a
    requires s.held != [] && s.held[0].frame == frames[e]
    ensures Tracks(frames, Advance(s.(held := s.held[1..]), frames[e]), a, e + 1)
  {
  }

  /** Delivering frame `e` releases the run behind it. */
  lemma {:induction false} ResumeTracks(c: Config, frames: seq<Frame>, s: State, a: set<int>, e: nat, now: int)
    requires Chain(frames) && e < |frames| && e in a
    requires s.aborted == [] && Buffers(frames, s.held, a, e + 1)
    ensures var r := Resume(c, s, frames[e], now); var n := RunEnd(a, e, |frames|);
      && r.out == Delivers(frames[e..n])
      && Tracks(frames, r.state, a, n)
  {
    var t := Advance(s.(haveLast := true, awaiting := false, lossReported := false), frames[e]);
    assert Tracks(frames, t, a, e + 1);
    ReleaseTracks(c, frames, t, a, e + 1);
    DeliversFrom(frames, e, RunEnd(a, e, |frames|));
    SettleTracks(c, frames, Release(t).state, a, RunEnd(a, e, |frames|), now);
    assert Release(t).out + [] == Release(t).out;
  }

  lemma {:induction false} SettleTracks(c: Config, frames: seq<Frame>, s: State, a: set<int>, e: nat, now: int)
    requires 0 < e <= |frames| && Tracks(frames, s, a, e)
    ensures Settle(c, s, now).out == [] && Tracks(frames, Settle(c, s, now).state, a, e)
  {
  }

  // ---- one arrival ----

  ghost predicate Grows(frames: seq<Frame>, s: State, a: set<int>, i: nat, r: Step)
    requires 0 < |frames| && i < |frames|
  {
    var e, e1 := RunEnd(a, 0, |frames|), RunEnd(a + {i}, 0, |frames|);
    e <= e1 && r.out == Delivers(frames[e..e1]) && Tracks(frames, r.state, a + {i}, e1)
  }

  lemma {:induction false} RunEndGrows(a: set<int>, i: nat, j: nat, n: nat)
    requires j <= n && j <= i < n
    ensures RunEnd(a, j, n) != i ==> RunEnd(a + {i}, j, n) == RunEnd(a, j, n)
    ensures RunEnd(a, j, n) == i ==> RunEnd(a + {i}, j, n) == RunEnd(a + {i}, i, n)
    decreases n - j
  {
    if j < n && j in a && j < i { RunEndGrows(a, i, j + 1, n); }
    else if j == i && i in a { assert a + {i} == a; }
  }

  lemma {:induction false} DuplicateChangesNothing(c: Config, frames: seq<Frame>, s: State, a: set<int>, i: nat, now: int)
    requires Chain(frames) && i < |frames| && i in a && Tracks(frames, s, a, RunEnd(a, 0, |frames|))
    ensures OnFrame(c, s, frames[i], now) == Step(s, [])
  {
    var e := RunEnd(a, 0, |frames|);
    if i >= Max(e, 1) {
      assert Holds(s.held, frames[i].seqNo);
      if e > 0 && i == e { assert false; }
    }
  }

  lemma {:induction false} DuplicateGrows(c: Config, frames: seq<Frame>, s: State, a: set<int>, i: nat, now: int)
    requires Chain(frames) && i < |frames| && i in a && Tracks(frames, s, a, RunEnd(a, 0, |frames|))
    ensures Grows(frames, s, a, i, OnFrame(c, s, frames[i], now))
  {
    DuplicateChangesNothing(c, frames, s, a, i, now);
    assert a + {i} == a;
    var e := RunEnd(a, 0, |frames|);
    assert frames[e..e] == [];
  }

  /** The frame owed arrives. */
  lemma {:induction false} OwedArrivalGrows(c: Config, frames: seq<Frame>, s: State, a: set<int>, e: nat, now: int)
    requires Chain(frames) && 0 < e < |frames| && e !in a
    requires e == RunEnd(a, 0, |frames|) && Tracks(frames, s, a, e)
    ensures Grows(frames, s, a, e, OnFrame(c, s, frames[e], now))
  {
    RunEndGrows(a, e, 0, |frames|);
    MoreBuffers(frames, s.held, a, e);
    ResumeTracks(c, frames, s, a + {e}, e, now);
    assert frames[e].seqNo == Succ(frames[e - 1].seqNo);
    assert OnFrame(c, s, frames[e], now) == Resume(c, s, frames[e], now);
  }

  lemma {:induction false} ArrivalGrows(c: Config, frames: seq<Frame>, s: State, a: set<int>, i: nat, now: int)
    requires Chain(frames) && i < |frames| && Tracks(frames, s, a, RunEnd(a, 0, |frames|))
    requires Fitting(c, frames, a + {i})
    ensures Grows(frames, s, a, i, OnFrame(c, s, frames[i], now))
  {
    if i in a {
      DuplicateGrows(c, frames, s, a, i, now);
    } else if i == 0 {
      FirstArrivalGrows(c, frames, s, a, now);
    } else if i == RunEnd(a, 0, |frames|) {
      OwedArrivalGrows(c, frames, s, a, i, now);
    } else {
      HeldArrivalGrows(c, frames, s, a, i, now);
    }
  }

  lemma {:induction false} MoreBuffers(frames: seq<Frame>, held: seq<Held>, a: set<int>, e: nat)
    requires e < |frames| && e !in a && Buffers(frames, held, a, Max(e, 1))
    ensures Buffers(frames, held, a + {e}, e + 1)
  {
    forall h | h in held
      ensures Off(frames, h) >= e + 1
    {
      assert Off(frames, h) in a;
    }
  }

  lemma {:induction false} FirstArrivalGrows(c: Config, frames: seq<Frame>, s: State, a: set<int>, now: int)
    requires Chain(frames) && 0 !in a && Tracks(frames, s, a, 0)
    ensures Grows(frames, s, a, 0, OnFrame(c, s, frames[0], now))
  {
    var k := frames[0].seqNo;
    AllNewer(s.held, k);
    RebaseOrdered(s.held, k);
    MoreBuffers(frames, s.held, a, 0);
    ResumeTracks(c, frames, s, a + {0}, 0, now);
    assert s.(held := s.held, aborted := []) == s;
  }

  lemma {:induction false} AllNewer(held: seq<Held>, q: Seq32)
    requires forall h :: h in held ==> Newer(h.frame.seqNo, q)
    ensures KeepNewer(held, q) == held
    decreases |held|
  {
    if held == [] {
    } else {
      assert held[0] in held;
      assert forall h :: h in held[1..] ==> h in held;
      AllNewer(held[1..], q);
    }
  }

  lemma {:induction false} HeldArrivalGrows(c: Config, frames: seq<Frame>, s: State, a: set<int>, i: nat, now: int)
    requires Chain(frames) && 0 < i < |frames| && i !in a
    requires Tracks(frames, s, a, RunEnd(a, 0, |frames|)) && i != RunEnd(a, 0, |frames|)
    requires Fitting(c, frames, a + {i})
    ensures Grows(frames, s, a, i, OnFrame(c, s, frames[i], now))
  {
    var e := RunEnd(a, 0, |frames|);
    RunEndGrows(a, i, 0, |frames|);
    assert i > e && frames[e..e] == [];
    var base := if e == 0 && s.held == [] then frames[i].seqNo else s.last;
    NotHeldYet(c, frames, s.held, a, Max(e, 1), i);
    PlaceBuffers(c, frames, s.held, a, Max(e, 1), i, base, now);
    var placed := Place(s.held, base, Held(frames[i], now));
    NeverOver(c, frames, placed, a + {i}, e);
    BoundFacts(c, placed, false);
    HeldArrivalState(c, frames, s, e, i, base, now);
  }

  /** What holding frame `i` does when nothing overflows. */
  lemma {:induction false} HeldArrivalState(c: Config, frames: seq<Frame>, s: State, e: nat, i: nat, base: Seq32, now: int)
    requires Chain(frames) && 0 < i < |frames| && e < i
    requires (s.haveLast <==> e > 0) && (e > 0 ==> s.last == frames[e - 1].seqNo) && s.aborted == []
    requires base == if e == 0 && s.held == [] then frames[i].seqNo else s.last
    requires !Holds(s.held, frames[i].seqNo)
    requires var placed := Place(s.held, base, Held(frames[i], now));
      !OverBounds(c, placed) && Bound(c, placed, false) == placed
    ensures var r := OnFrame(c, s, frames[i], now);
      && r.out == []
      && r.state == s.(last := base, held := Place(s.held, base, Held(frames[i], now)), gapSince := r.state.gapSince)
  {
  }

  // ---- whole runs ----

  /** Every held frame first arrived at the time recorded for it. */
  ghost predicate HeldArrived(s: State, events: seq<Event>) {
    forall h :: h in s.held ==> exists j :: FirstArrival(events, j, h.frame, h.arrived)
  }

  lemma {:induction false} HeldComesFrom(c: Config, s: State, e: Event)
    requires Inv(c, s)
    ensures forall h :: h in Apply(c, s, e).state.held ==> h in s.held || e == Arrived(h.frame, h.arrived)
  {
    match e
    case Arrived(f, now) => OnFrameHeldComesFrom(c, s, f, now);
    case Started(_, _, _) =>
    case Aborted(q, now) =>
      AbortedHeld(c, s, q, now);
      WithoutFacts(s.held, q);
      LeftFacts(Without(s.held, q), s.held, 0);
    case Poll(now) =>
      PollHeld(c, s, now);
      KeepFreshFacts(s.held, now, HoldUs(c, s.rtt));
    case SetRtt(_) =>
  }

  lemma {:induction false} AbortedHeld(c: Config, s: State, q: Seq32, now: int)
    ensures OnAborted(c, s, q, now).state.held in {s.held, Without(s.held, q)}
  {
    var lostKey := s.inflight.Some? && q == s.inflight.value.seqNo;
    var s1 := if lostKey then s.(inflight := None) else s;
    assert AbortOwed(c, s1, lostKey, now).state.held == s.held;
    var r := if lostKey && s1.awaiting then ReportLoss(s1) else Step(s1, []);
    assert r.state.held == s.held;
  }

  lemma {:induction false} PollHeld(c: Config, s: State, now: int)
    ensures OnPoll(c, s, now).state.held in {s.held, KeepFresh(s.held, now, HoldUs(c, s.rtt))}
  {
  }

  lemma {:induction false} ResumeHeld(c: Config, s: State, f: Frame, now: int)
    ensures forall h :: h in Resume(c, s, f, now).state.held ==> h in s.held
  {
    var t := Advance(s.(haveLast := true, awaiting := false, lossReported := false), f);
    ReleaseLeaves(t);
    LeftFacts(Release(t).state.held, s.held, 0);
  }

  lemma {:induction false} AnchorHeld(c: Config, s: State, f: Frame, now: int)
    requires Inv(c, s) && !s.haveLast && f.keyframe
    ensures forall h :: h in OnFrame(c, s, f, now).state.held ==> h in s.held
  {
    var newer := KeepNewer(s.held, f.seqNo);
    KeepNewerFacts(s.held, f.seqNo);
    LeftFacts(newer, s.held, s.last);
    Distinct(newer, s.last);
    RebaseFacts(newer, f.seqNo);
    ResumeHeld(c, s.(held := Rebase(newer, f.seqNo), aborted := []), f, now);
  }

  lemma {:induction false} PlacedHeld(c: Config, s: State, f: Frame, now: int)
    requires Inv(c, s) && !Holds(s.held, f.seqNo)
    ensures s.haveLast ==> forall h :: h in HoldBehindGap(c, s, f, now).state.held ==> h in s.held || h == Held(f, now)
    ensures !s.haveLast ==> forall h :: h in HoldBeforeKeyframe(c, s, f, now).held ==> h in s.held || h == Held(f, now)
  {
    var base := if !s.haveLast && s.held == [] then f.seqNo else s.last;
    var placed := Place(s.held, base, Held(f, now));
    PlaceFacts(s.held, base, Held(f, now));
    BoundFacts(c, placed, s.haveLast);
    LeftFacts(Bound(c, placed, s.haveLast), placed, base);
  }

  lemma {:induction false} OnFrameHeldComesFrom(c: Config, s: State, f: Frame, now: int)
    requires Inv(c, s)
    ensures forall h :: h in OnFrame(c, s, f, now).state.held ==> h in s.held || h == Held(f, now)
  {
    if s.haveLast && !Newer(f.seqNo, s.last) {
    } else if !s.haveLast && f.keyframe {
      AnchorHeld(c, s, f, now);
    } else if s.haveLast && f.seqNo == Succ(s.last) {
      ResumeHeld(c, s, f, now);
    } else if f.keyframe {
      KeepNewerFacts(s.held, f.seqNo);
      ResumeHeld(c, s.(held := KeepNewer(s.held, f.seqNo)), f, now);
    } else if !Holds(s.held, f.seqNo) {
      PlacedHeld(c, s, f, now);
    }
  }

  lemma {:induction false} QuietPollChangesNothing(c: Config, s: State, now: int)
    requires Inv(c, s) && (s.haveLast ==> !s.awaiting)
    requires forall h :: h in s.held ==> now - h.arrived < HoldUs(c, s.rtt)
    ensures OnPoll(c, s, now).out == []
    ensures OnPoll(c, s, now).state == s.(gapSince := OnPoll(c, s, now).state.gapSince)
  {
    KeepFreshFacts(s.held, now, HoldUs(c, s.rtt));
  }

  lemma {:induction false} RunTracks(c: Config, rtt: nat, frames: seq<Frame>, events: seq<Event>)
    requires Chain(frames) && Undisturbed(c, rtt, frames, events)
    ensures Good(c, frames, Run(c, rtt, events), Offsets(frames, events))
    ensures HeldArrived(Run(c, rtt, events).state, events)
    decreases |events|
  {
    if events == [] {
      assert Offsets(frames, events) == {};
      assert frames[..0] == [];
    } else {
      var n := |events| - 1;
      assert events == events[..n] + [events[n]];
      UndisturbedBefore(c, rtt, frames, events[..n], events[n]);
      RunTracks(c, rtt, frames, events[..n]);
      RunKeeps(c, rtt, events[..n]);
      StepTracks(c, rtt, frames, events[..n], events[n]);
    }
  }

  lemma {:induction false} UndisturbedBefore(c: Config, rtt: nat, frames: seq<Frame>, before: seq<Event>, ev: Event)
    requires Undisturbed(c, rtt, frames, before + [ev])
    ensures Undisturbed(c, rtt, frames, before)
    ensures PollInTime(c, rtt, frames, before + [ev], |before|)
    ensures Fitting(c, frames, Offsets(frames, before + [ev]))
  {
    var events := before + [ev];
    assert forall j :: 0 <= j < |before| ==> events[j] == before[j];
    assert events[..|events|] == events;
    forall p | 0 <= p <= |before|
      ensures events[..p] == before[..p] && Fitting(c, frames, Offsets(frames, before[..p]))
    {
      assert Fitting(c, frames, Offsets(frames, events[..p]));
    }
    forall p | 0 <= p < |before|
      ensures PollInTime(c, rtt, frames, before, p)
    {
      assert PollInTime(c, rtt, frames, events, p);
    }
  }

  lemma {:induction false} OffsetsStep(frames: seq<Frame>, before: seq<Event>, ev: Event)
    requires forall i, j :: 0 <= i < j < |frames| ==> frames[i] != frames[j]
    ensures ev.Arrived? ==> forall i :: 0 <= i < |frames| && frames[i] == ev.frame ==>
      Offsets(frames, before + [ev]) == Offsets(frames, before) + {i}
    ensures !ev.Arrived? ==> Offsets(frames, before + [ev]) == Offsets(frames, before)
  {
    var after := before + [ev];
    forall f
      ensures HasArrived(after, f) <==> HasArrived(before, f) || (ev.Arrived? && ev.frame == f)
    {
      if HasArrived(before, f) {
        var j :| 0 <= j < |before| && before[j].Arrived? && before[j].frame == f;
        assert after[j] == before[j];
      }
      if ev.Arrived? && ev.frame == f {
        assert after[|before|] == ev;
      }
    }
  }

  ghost predicate Good(c: Config, frames: seq<Frame>, r: Step, a: set<int>)
    requires 0 < |frames|
  {
    var e := RunEnd(a, 0, |frames|);
    r.out == Delivers(frames[..e]) && Tracks(frames, r.state, a, e)
  }

  lemma {:induction false} DeliversJoin(frames: seq<Frame>, e: nat, n: nat)
    requires e <= n <= |frames|
    ensures Delivers(frames[..e]) + Delivers(frames[e..n]) == Delivers(frames[..n])
  {
  }

  lemma {:induction false} ArrivalIsGood(c: Config, frames: seq<Frame>, r: Step, a: set<int>, i: nat, now: int)
    requires Chain(frames) && i < |frames| && Good(c, frames, r, a) && Fitting(c, frames, a + {i})
    ensures var t := OnFrame(c, r.state, frames[i], now);
      Good(c, frames, Step(t.state, r.out + t.out), a + {i})
  {
    ArrivalGrows(c, frames, r.state, a, i, now);
    DeliversJoin(frames, RunEnd(a, 0, |frames|), RunEnd(a + {i}, 0, |frames|));
  }

  lemma {:induction false} OtherIsGood(c: Config, frames: seq<Frame>, r: Step, a: set<int>, ev: Event)
    requires Chain(frames) && Inv(c, r.state) && Good(c, frames, r, a)
    requires ev.Started? || ev.Poll? || ev.SetRtt?
    requires ev.Poll? ==> forall h :: h in r.state.held ==> ev.now - h.arrived < HoldUs(c, r.state.rtt)
    ensures var t := Apply(c, r.state, ev); Good(c, frames, Step(t.state, r.out + t.out), a)
  {
    if ev.Poll? { QuietPollChangesNothing(c, r.state, ev.now); }
    assert r.out + [] == r.out;
  }

  lemma {:induction false} FirstArrivalStays(before: seq<Event>, ev: Event, j: int, f: Frame, t: int)
    ensures FirstArrival(before, j, f, t) ==> FirstArrival(before + [ev], j, f, t)
    ensures ev == Arrived(f, t) && !HasArrived(before, f) ==> FirstArrival(before + [ev], |before|, f, t)
  {
    var events := before + [ev];
    if 0 <= j < |before| { assert events[..j] == before[..j]; }
    assert events[..|before|] == before;
  }

  /** A frame held after a step was held before it, or arrived with it for the first time. */
  lemma {:induction false} HeldIsOldOrNew(c: Config, frames: seq<Frame>, s: State, before: seq<Event>, ev: Event, h: Held)
    requires Chain(frames) && Inv(c, s)
    requires Tracks(frames, s, Offsets(frames, before), LongestRun(frames, before))
    requires ev.Arrived? ==> ev.frame in frames
    requires h in Apply(c, s, ev).state.held
    ensures h in s.held || (ev == Arrived(h.frame, h.arrived) && !HasArrived(before, h.frame))
  {
    HeldComesFrom(c, s, ev);
    if ev.Arrived? && HasArrived(before, ev.frame) {
      var i :| 0 <= i < |frames| && frames[i] == ev.frame;
      DuplicateChangesNothing(c, frames, s, Offsets(frames, before), i, ev.now);
    }
  }

  /** A frame held after a step first arrived when its record says. */
  lemma {:induction false} HeldArrivedStep(c: Config, frames: seq<Frame>, s: State, before: seq<Event>, ev: Event)
    requires Chain(frames) && Inv(c, s) && HeldArrived(s, before)
    requires Tracks(frames, s, Offsets(frames, before), LongestRun(frames, before))
    requires ev.Arrived? ==> ev.frame in frames
    ensures HeldArrived(Apply(c, s, ev).state, before + [ev])
  {
    forall h | h in Apply(c, s, ev).state.held
      ensures exists j :: FirstArrival(before + [ev], j, h.frame, h.arrived)
    {
      HeldIsOldOrNew(c, frames, s, before, ev, h);
      if h in s.held {
        var j :| FirstArrival(before, j, h.frame, h.arrived);
        FirstArrivalStays(before, ev, j, h.frame, h.arrived);
      } else {
        FirstArrivalStays(before, ev, 0, h.frame, h.arrived);
      }
    }
  }

  /** Everything a poll may find held is still waiting, so it is not held too long. */
  lemma {:induction false} PollFindsNothing(c: Config, rtt: nat, frames: seq<Frame>, before: seq<Event>, now: int)
    requires Chain(frames) && PollInTime(c, rtt, frames, before + [Poll(now)], |before|)
    requires HeldArrived(Run(c, rtt, before).state, before)
    requires Good(c, frames, Run(c, rtt, before), Offsets(frames, before))
    ensures var s := Run(c, rtt, before).state; forall h :: h in s.held ==> now - h.arrived < HoldUs(c, s.rtt)
  {
    var events := before + [Poll(now)];
    assert events[..|before|] == before && events[|before|] == Poll(now);
    var s := Run(c, rtt, before).state;
    forall h | h in s.held
      ensures now - h.arrived < HoldUs(c, s.rtt)
    {
      var j :| FirstArrival(before, j, h.frame, h.arrived);
      assert h.frame == frames[Off(frames, h)];
      assert StillWaiting(frames, before, h.frame);
    }
  }

  lemma {:induction false} StepTracks(c: Config, rtt: nat, frames: seq<Frame>, before: seq<Event>, ev: Event)
    requires Chain(frames) && !ev.Aborted? && (ev.Arrived? ==> ev.frame in frames)
    requires PollInTime(c, rtt, frames, before + [ev], |before|) && Fitting(c, frames, Offsets(frames, before + [ev]))
    requires Inv(c, Run(c, rtt, before).state) && HeldArrived(Run(c, rtt, before).state, before)
    requires Good(c, frames, Run(c, rtt, before), Offsets(frames, before))
    ensures Good(c, frames, Run(c, rtt, before + [ev]), Offsets(frames, before + [ev]))
    ensures HeldArrived(Run(c, rtt, before + [ev]).state, before + [ev])
  {
    var r := Run(c, rtt, before);
    assert (before + [ev])[..|before|] == before;
    ChainDistinct(frames);
    OffsetsStep(frames, before, ev);
    HeldArrivedStep(c, frames, r.state, before, ev);
    if ev.Arrived? {
      var i :| 0 <= i < |frames| && frames[i] == ev.frame;
      ArrivalIsGood(c, frames, r, Offsets(frames, before), i, ev.now);
    } else {
      if ev.Poll? { PollFindsNothing(c, rtt, frames, before, ev.now); }
      OtherIsGood(c, frames, r, Offsets(frames, before), ev);
    }
  }

  lemma {:induction false} ChainDistinct(frames: seq<Frame>)
    requires Chain(frames)
    ensures forall i, j :: 0 <= i < j < |frames| ==> frames[i] != frames[j]
  {
  }

  /**
   After every undisturbed run the callbacks are exactly the deliveries of the longest
   unbroken run of the chain that has arrived: in order, once each, and no loss report.
   */
  lemma {:induction false} DeliversTheLongestRun(c: Config, rtt: nat, frames: seq<Frame>, events: seq<Event>)
    requires Chain(frames) && Undisturbed(c, rtt, frames, events)
    ensures Run(c, rtt, events).out == Delivers(frames[..LongestRun(frames, events)])
  {
    RunTracks(c, rtt, frames, events);
  }

  /** Once every frame has arrived, every frame has been delivered and none is held. */
  lemma {:induction false} DeliversEverything(c: Config, rtt: nat, frames: seq<Frame>, events: seq<Event>)
    requires Chain(frames) && Undisturbed(c, rtt, frames, events)
    requires forall i :: 0 <= i < |frames| ==> HasArrived(events, frames[i])
    ensures Run(c, rtt, events).out == Delivers(frames)
    ensures Run(c, rtt, events).state.held == []
  {
    RunTracks(c, rtt, frames, events);
    var e := LongestRun(frames, events);
    assert e == |frames| && frames[..e] == frames;
    var held := Run(c, rtt, events).state.held;
    assert forall i :: 0 <= i < |held| ==> held[i] in held;
    Fits(frames, held, Offsets(frames, events), |frames|);
  }
}
