/**
 The reference ring at work: what playback publishes is what was pushed, frame by frame, and
 capture left to itself uses the first frame of a new epoch after the delay, and then one
 frame after the other.
 */
module EchoRuns {
  import opened EchoRing

  // ---- what is published is what was pushed ----

  function Flat(frames: seq<seq<Sample>>): seq<Sample>
    decreases |frames|
  {
    if frames == [] then [] else Flat(frames[..|frames| - 1]) + frames[|frames| - 1]
  }

  function WithoutLast(samples: seq<Sample>, n: nat): seq<Sample> {
    if n <= |samples| then samples[..|samples| - n] else []
  }

  /** Every sample pushed, less the unfinished frame that is given up when a new epoch is adopted. */
  function Pushed(acts: seq<Action>): seq<Sample>
    decreases |acts|
  {
    if acts == [] then []
    else
      var n := |acts| - 1;
      var s := Run(acts[..n]);
      match acts[n]
      case PlaybackStep(packed) =>
        if s.tape.at == Pushing then Pushed(acts[..n]) + [Sample(packed, s.tape.epoch)] else Pushed(acts[..n])
      case BeginPlayback =>
        if s.tape.at == Between && s.tape.epoch != s.resetEpoch
        then WithoutLast(Pushed(acts[..n]), |s.tape.frame|) else Pushed(acts[..n])
      case _ => Pushed(acts[..n])
  }

  ghost predicate Holds(t: Tape, pushed: seq<Sample>) {
    Flat(t.published) + t.frame == pushed
  }

  lemma {:induction false} FlatSnoc(frames: seq<seq<Sample>>, f: seq<Sample>)
    ensures Flat(frames + [f]) == Flat(frames) + f
  {
    assert (frames + [f])[..|frames|] == frames;
  }

  lemma {:induction false} TapeHolds(t: Tape, packed: int, pushed: seq<Sample>)
    requires Holds(t, pushed)
    ensures Holds(TapeNext(t, packed), if t.at == Pushing then pushed + [Sample(packed, t.epoch)] else pushed)
  {
    var u := TapeNext(t, packed);
    if t.at.Publishing? {
      FlatSnoc(t.published, t.frame);
      assert u.published == t.published + [t.frame] && u.frame == [];
      assert Flat(u.published) + [] == Flat(u.published);
    } else if t.at.Pushing? {
      assert u.published == t.published && u.frame == t.frame + [Sample(packed, t.epoch)];
      assert Flat(t.published) + u.frame == (Flat(t.published) + t.frame) + [Sample(packed, t.epoch)];
    } else {
      assert u.published == t.published && u.frame == t.frame;
    }
  }

  lemma {:induction false} AdoptingHolds(t: Tape, pushed: seq<Sample>)
    requires Holds(t, pushed)
    ensures Holds(t.(frame := []), WithoutLast(pushed, |t.frame|))
  {
    assert pushed[..|pushed| - |t.frame|] == Flat(t.published) == Flat(t.published) + [];
  }

  /** In every interleaving the published frames, and the one being filled, are exactly the samples pushed, in order. */
  lemma {:induction false} PublishedIsWhatWasPushed(acts: seq<Action>)
    ensures Flat(Run(acts).tape.published) + Run(acts).tape.frame == Pushed(acts)
    decreases |acts|
  {
    if acts == [] {
    } else {
      var n := |acts| - 1;
      var s := Run(acts[..n]);
      PublishedIsWhatWasPushed(acts[..n]);
      assert Run(acts) == Next(s, acts[n]);
      match acts[n]
      case PlaybackStep(packed) => TapeHolds(s.tape, packed, Pushed(acts[..n]));
      case BeginPlayback => AdoptingHolds(s.tape, Pushed(acts[..n]));
      case _ =>
    }
  }

  // ---- a full frame gets published ----

  function PlaybackSteps(t: Tape, n: nat): Tape
    decreases n
  {
    if n == 0 then t else PlaybackSteps(TapeNext(t, 0), n - 1)
  }

  lemma {:induction false} StoringFinishes(t: Tape)
    requires Shaped(t) && RingIntact(t) && t.at.Storing?
    ensures var u := PlaybackSteps(t, FRAME_SIZE - t.at.i + 1);
      u.published == t.published + [t.frame] && u.written == t.written + 1 && u.at == Pushing && u.frame == []
    decreases FRAME_SIZE - t.at.i
  {
    var u := TapeNext(t, 0);
    var left := FRAME_SIZE - t.at.i;
    TapeKeeps(t, 0);
    assert PlaybackSteps(t, left + 1) == PlaybackSteps(u, left);
    if left == 1 {
      assert PlaybackSteps(u, 1) == PlaybackSteps(TapeNext(u, 0), 0);
    } else {
      StoringFinishes(u);
    }
  }

  /** After every run, a frame that is full is published, as it is, by the steps that store it. */
  lemma {:induction false} FullFrameIsPublished(acts: seq<Action>)
    requires Run(acts).tape.at == Storing(0)
    ensures var t := Run(acts).tape; var u := PlaybackSteps(t, FRAME_SIZE + 1);
      u.published == t.published + [t.frame] && u.written == t.written + 1 && u.at == Pushing && u.frame == []
  {
    RunKeeps(acts);
    StoringFinishes(Run(acts).tape);
  }

  /** A playback callback that finds a new epoch announces it with its first two steps, as beginning with the next frame. */
  lemma {:induction false} PlaybackAnnouncesTheEpoch(s: State, x: int, y: int)
    requires s.tape.at == Between && s.tape.epoch != s.resetEpoch
    ensures var t := Next(Next(Next(s, BeginPlayback), PlaybackStep(x)), PlaybackStep(y));
      && t.seenEpoch == t.tape.epoch == s.resetEpoch && t.epochFirst == s.tape.written
      && t.tape == s.tape.(epoch := s.resetEpoch, frame := [], at := Pushing)
  {
  }

  // ---- whole captures ----

  lemma {:induction false} StepsJoin(s: State, a: nat, b: nat)
    ensures CaptureSteps(s, a + b) == CaptureSteps(CaptureSteps(s, a), b)
    decreases a
  {
    if a == 0 {
    } else {
      StepsJoin(CaptureNext(s), a - 1, b);
    }
  }

  lemma {:induction false} AwayStays(s: State, n: nat)
    requires s.reader.at == Away
    ensures CaptureSteps(s, n) == s
    decreases n
  {
    if n == 0 {
    } else {
      assert CaptureNext(s) == s;
      AwayStays(s, n - 1);
    }
  }

  /** One capture callback from its first load to its last, with no step of playback in between. */
  function CaptureCall(s: State): State {
    CaptureSteps(Next(s, BeginCapture), FRAME_SIZE + 4)
  }

  function CaptureCalls(s: State, n: nat): State
    decreases n
  {
    if n == 0 then s else CaptureCall(CaptureCalls(s, n - 1))
  }

  /** Capture is between callbacks, and playback has announced the current epoch. */
  ghost predicate Settled(s: State) {
    s.reader.at == Away && s.seenEpoch == s.resetEpoch && Shaped(s.tape) && RingIntact(s.tape)
  }

  /** The state at the first check of the next capture. */
  function AtCheck(s: State): State {
    var r := s.reader;
    var isNew := r.epoch != s.resetEpoch;
    var first := if isNew || !r.synchronized then s.epochFirst else r.frame;
    s.(reader := Reader(Synchronized, s.resetEpoch, true, first, if isNew then 0 else r.delay, isNew || r.starved),
       passed := if isNew then 0 else s.passed)
  }

  lemma {:induction false} ReachesTheCheck(s: State)
    requires Settled(s)
    ensures CaptureSteps(Next(s, BeginCapture), 2) == AtCheck(s)
  {
    var s1 := Next(s, BeginCapture);
    var s2 := CaptureNext(s1);
    assert CaptureSteps(s1, 2) == CaptureSteps(s2, 1) == CaptureSteps(CaptureNext(s2), 0);
  }

  lemma {:induction false} CallFromTheCheck(s: State)
    requires Settled(s)
    ensures CaptureCall(s) == CaptureSteps(AtCheck(s), FRAME_SIZE + 2)
  {
    ReachesTheCheck(s);
    StepsJoin(Next(s, BeginCapture), 2, FRAME_SIZE + 2);
  }

  /** The delay the check finds: a starved reader owes all of it. */
  function Owes(r: Reader): nat { if r.starved then REFERENCE_DELAY_FRAMES else r.delay }

  /** A capture that still owes delay passes unused, and owes one less. */
  lemma {:induction false} CallPasses(s: State)
    requires Settled(s) && AtCheck(s).reader.frame < s.tape.written && Owes(AtCheck(s).reader) > 0
    ensures var u := AtCheck(s);
      CaptureCall(s) == u.(reader := u.reader.(at := Away, starved := false, delay := Owes(u.reader) - 1), passed := u.passed + 1)
  {
    var u := AtCheck(s);
    CallFromTheCheck(s);
    var v := CaptureNext(u);
    assert CaptureSteps(u, FRAME_SIZE + 2) == CaptureSteps(v, FRAME_SIZE + 1);
    AwayStays(v, FRAME_SIZE + 1);
  }

  /** A capture that owes none uses its frame and moves to the next. */
  lemma {:induction false} CallUses(s: State)
    requires Settled(s) && Readable(AtCheck(s)) && Owes(AtCheck(s).reader) == 0
    ensures var u := AtCheck(s); var t := CaptureCall(s);
      && t.used == s.used + [Use(u.reader.frame, s.tape.published[u.reader.frame], s.resetEpoch, u.passed)]
      && t == u.(used := t.used, reader := u.reader.(at := Away, starved := false, delay := 0, frame := u.reader.frame + 1))
  {
    var u := AtCheck(s);
    CallFromTheCheck(s);
    var v := CaptureNext(u);
    assert v == u.(reader := u.reader.(at := Copying([]), starved := false, delay := 0));
    assert CaptureSteps(u, FRAME_SIZE + 2) == CaptureSteps(v, FRAME_SIZE + 1);
    CopyRuns(v);
  }

  /** The copy, to its end. */
  lemma {:induction false} CopyRuns(s: State)
    requires Readable(s) && CopyTrue(s.reader, s.tape) && s.reader.at.Copying?
    ensures var t := CaptureSteps(s, FRAME_SIZE - |s.reader.at.reference| + 1);
      t == s.(used := s.used + [Use(s.reader.frame, s.tape.published[s.reader.frame], s.reader.epoch, s.passed)],
              reader := s.reader.(at := Away, frame := s.reader.frame + 1))
    decreases FRAME_SIZE - |s.reader.at.reference|
  {
    var t := CaptureNext(s);
    var left := FRAME_SIZE - |s.reader.at.reference|;
    CopyStep(s);
    assert t == s.(reader := s.reader.(at := t.reader.at));
    assert CaptureSteps(s, left + 1) == CaptureSteps(t, left);
    if left == 1 {
      assert CaptureSteps(t, 1) == CaptureSteps(CaptureNext(t), 0);
    } else {
      CopyRuns(t);
    }
  }

  /** A capture that finds its frame not yet published uses nothing, and owes the whole delay again. */
  lemma {:induction false} CallFindsNothing(s: State)
    requires Settled(s) && s.tape.written <= AtCheck(s).reader.frame
    ensures var u := AtCheck(s); var t := CaptureCall(s);
      t == u.(reader := t.reader, passed := 0) &&
      t.reader == u.reader.(at := Away, starved := true, delay := t.reader.delay)
  {
    var u := AtCheck(s);
    CallFromTheCheck(s);
    var v := CaptureNext(u);
    assert CaptureSteps(u, FRAME_SIZE + 2) == CaptureSteps(v, FRAME_SIZE + 1);
    AwayStays(v, FRAME_SIZE + 1);
  }

  /** One that finds itself lapped, at the check or after the copy, uses nothing, gives up what it missed and starts over at the newest frame. */
  ghost predicate StartsOver(s: State, t: State) {
    t == s.(reader := s.reader.(at := Away, frame := s.tape.written, delay := 0, starved := true), passed := 0)
  }

  lemma {:induction false} CallFindsALap(s: State)
    requires Settled(s) && Owes(AtCheck(s).reader) == 0
    requires s.tape.written >= AtCheck(s).reader.frame + QUEUE_CAPACITY_FRAMES
    ensures StartsOver(AtCheck(s), CaptureCall(s))
  {
    var u := AtCheck(s);
    CallFromTheCheck(s);
    var v := CaptureNext(u);
    assert CaptureSteps(u, FRAME_SIZE + 2) == CaptureSteps(v, FRAME_SIZE + 1);
    AwayStays(v, FRAME_SIZE + 1);
  }

  lemma {:induction false} CopyFindsALap(s: State)
    requires s.reader.at.Copied? && s.tape.written >= s.reader.frame + QUEUE_CAPACITY_FRAMES
    ensures StartsOver(s, CaptureNext(s))
  {
  }

  // ---- a new epoch ----

  /** `n` captures of a newly announced epoch have passed, and its first frame is still the one wanted. */
  ghost predicate Waited(s: State, t: State, n: nat) {
    && n <= REFERENCE_DELAY_FRAMES
    && t == s.(reader := t.reader, passed := t.passed)
    && t.reader.at == Away
    && (n == 0 ==> t == s)
    && (n > 0 ==> t.reader == Reader(Away, s.resetEpoch, true, s.epochFirst, REFERENCE_DELAY_FRAMES - n, false) && t.passed == n)
  }

  lemma {:induction false} WaitsOneMore(s: State, t: State, n: nat)
    requires Settled(s) && s.reader.epoch != s.resetEpoch && s.epochFirst < s.tape.written
    requires Waited(s, t, n) && n < REFERENCE_DELAY_FRAMES
    ensures Waited(s, CaptureCall(t), n + 1)
  {
    CallPasses(t);
  }

  lemma {:induction false} WaitsTheDelay(s: State, n: nat)
    requires Settled(s) && s.reader.epoch != s.resetEpoch && s.epochFirst < s.tape.written
    requires n <= REFERENCE_DELAY_FRAMES
    ensures Waited(s, CaptureCalls(s, n), n)
    decreases n
  {
    if n == 0 {
    } else {
      WaitsTheDelay(s, n - 1);
      WaitsOneMore(s, CaptureCalls(s, n - 1), n - 1);
    }
  }

  /** Capture has not taken up the epoch playback has announced, whose first frame is there and not lapped. */
  ghost predicate NewEpochReady(s: State) {
    && s.reader.at == Away && s.seenEpoch == s.resetEpoch && s.reader.epoch != s.resetEpoch
    && s.epochFirst < s.tape.written < s.epochFirst + QUEUE_CAPACITY_FRAMES
    && s.tape.written <= |s.tape.published|
  }

  lemma {:induction false} SettledStarts(s: State)
    requires Settled(s) && NewEpochReady(s)
    ensures CaptureCalls(s, REFERENCE_DELAY_FRAMES + 1).used ==
      s.used + [Use(s.epochFirst, s.tape.published[s.epochFirst], s.resetEpoch, REFERENCE_DELAY_FRAMES)]
  {
    WaitsTheDelay(s, REFERENCE_DELAY_FRAMES);
    var t := CaptureCalls(s, REFERENCE_DELAY_FRAMES);
    assert CaptureCalls(s, REFERENCE_DELAY_FRAMES + 1) == CaptureCall(t);
    CallUses(t);
  }

  /**
   From any point of any run where a new epoch is announced and its first frame published,
   captures left to themselves hold back exactly the delay and then use that very frame.
   */
  lemma {:induction false} NewEpochIsUsedAfterTheDelay(acts: seq<Action>)
    requires NewEpochReady(Run(acts))
    ensures var s := Run(acts);
      CaptureCalls(s, REFERENCE_DELAY_FRAMES + 1).used ==
        s.used + [Use(s.epochFirst, s.tape.published[s.epochFirst], s.resetEpoch, REFERENCE_DELAY_FRAMES)]
  {
    RunKeeps(acts);
    SettledStarts(Run(acts));
  }

  /** Capture is in step with the announced epoch, owes no delay, and its next frame is there and not lapped. */
  ghost predicate InStep(s: State) {
    var r := s.reader;
    && r.at == Away && s.seenEpoch == s.resetEpoch == r.epoch && r.synchronized && !r.starved && r.delay == 0
    && r.frame < s.tape.written < r.frame + QUEUE_CAPACITY_FRAMES && s.tape.written <= |s.tape.published|
  }

  /** From there on each capture uses the next frame, one after the other. */
  lemma {:induction false} EachCaptureUsesTheNextFrame(acts: seq<Action>)
    requires InStep(Run(acts))
    ensures var s := Run(acts); var t := CaptureCall(s);
      && t.used == s.used + [Use(s.reader.frame, s.tape.published[s.reader.frame], s.resetEpoch, s.passed)]
      && t == s.(used := t.used, reader := s.reader.(frame := s.reader.frame + 1))
  {
    RunKeeps(acts);
    InStepUses(Run(acts));
  }

  lemma {:induction false} InStepUses(s: State)
    requires InStep(s) && Settled(s)
    ensures var t := CaptureCall(s);
      && t.used == s.used + [Use(s.reader.frame, s.tape.published[s.reader.frame], s.resetEpoch, s.passed)]
      && t == s.(used := t.used, reader := s.reader.(frame := s.reader.frame + 1))
  {
    CallUses(s);
  }
}
