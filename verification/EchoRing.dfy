/**
 The echo canceller's reference ring: playback publishes frames of samples into a ring of
 slots, capture copies one frame out and re-checks the write counter afterwards, neither
 ever waits. One step is one atomic load or store of one thread; the steps interleave
 freely. The history of published frames is kept beside the state so that what capture
 used can be compared with what playback published.
 */
module EchoRing {
  import opened Basics

  /** Frames in the ring, captures held back after a break, and samples in a frame. */
  datatype Sizes = Sizes(capacity: nat, delay: nat, frame: nat)

  /** The program's own are the witness. */
  type SaneSizes = z: Sizes | z.capacity >= 1 && z.frame >= 1 witness Sizes(64, 2, 480)

  /** No value is given: everything here holds for any sane sizes. */
  const SIZES: SaneSizes

  const QUEUE_CAPACITY_FRAMES: nat := SIZES.capacity
  const REFERENCE_DELAY_FRAMES: nat := SIZES.delay
  const FRAME_SIZE: nat := SIZES.frame

  /** A packed stereo sample, tagged with the epoch playback was in when it was pushed. */
  datatype Sample = Sample(packed: int, epoch: nat)

  /** Where playback is inside one callback. */
  datatype PlaybackAt =
    | Between                    // outside a callback
    | Adopting                   // about to store epoch_first_frame_
    | Announcing                 // about to store playback_seen_epoch_
    | Pushing                    // taking samples
    | Storing(i: nat)            // publish_playback_frame: about to store sample i
    | Publishing                 // about to store written_frames_

  /** Where capture is inside one callback, with its local variables. */
  datatype CaptureAt =
    | Away
    | Loaded(epoch: nat)                // reset_epoch_ loaded
    | Seen                              // playback_seen_epoch_ matched
    | Synchronized                      // read_frame_ set
    | Copying(reference: seq<Sample>)   // samples loaded so far
    | Copied(reference: seq<Sample>)    // about to load written_frames_ again

  /** A reference frame handed to the filter; `heldBack` captures passed unused since the last break before it. */
  datatype Use = Use(frame: nat, reference: seq<Sample>, epoch: nat, heldBack: nat)

  /** What playback writes: the ring, the write counter, the frame being filled, and where it is. */
  datatype Tape = Tape(
    ring: seq<Sample>,
    written: nat,
    at: PlaybackAt,
    epoch: nat,
    frame: seq<Sample>,
    published: seq<seq<Sample>>)

  /** What capture keeps to itself. */
  datatype Reader = Reader(
    at: CaptureAt,
    epoch: nat,
    synchronized: bool,
    frame: nat,
    delay: nat,
    starved: bool)

  /** `resetEpoch`, `seenEpoch` and `epochFirst` are shared; `passed` and `used` are history. */
  datatype State = State(
    tape: Tape,
    resetEpoch: nat,
    seenEpoch: nat,
    epochFirst: nat,
    reader: Reader,
    passed: nat,
    used: seq<Use>)

  datatype Action =
    | RequestReset
    | BeginPlayback
    | PlaybackStep(packed: int)
    | EndPlayback
    | BeginCapture
    | CaptureStep

  function Start(): State {
    State(Tape(seq(QUEUE_CAPACITY_FRAMES * FRAME_SIZE, i => Sample(0, 0)), 0, Between, 0, [], []),
          1, 0, 0, Reader(Away, 0, false, 0, 0, true), 0, [])
  }

  /** The slot of sample `i` of frame `n`. */
  function Slot(n: nat, i: nat): (r: nat)
    ensures i < FRAME_SIZE ==> r < QUEUE_CAPACITY_FRAMES * FRAME_SIZE
  {
    assert i < FRAME_SIZE ==> n % QUEUE_CAPACITY_FRAMES * FRAME_SIZE + i < QUEUE_CAPACITY_FRAMES * FRAME_SIZE by {
      if i < FRAME_SIZE { RowsDoNotOverlap(n % QUEUE_CAPACITY_FRAMES, QUEUE_CAPACITY_FRAMES, FRAME_SIZE); }
    }
    n % QUEUE_CAPACITY_FRAMES * FRAME_SIZE + i
  }

  // ---- playback ----

  /** Entering `push_playback`: the reset epoch is loaded and, if new, adopted. */
  function EnterPlayback(t: Tape, epoch: nat): Tape {
    if t.epoch != epoch then t.(epoch := epoch, frame := [], at := Adopting) else t.(at := Pushing)
  }

  /** A playback step that touches only the tape. */
  function TapeNext(t: Tape, packed: int): Tape {
    match t.at
    case Between => t
    case Adopting => t.(at := Announcing)
    case Announcing => t.(at := Pushing)
    case Pushing =>
      var frame := t.frame + [Sample(packed, t.epoch)];
      t.(frame := frame, at := if |frame| == FRAME_SIZE then Storing(0) else Pushing)
    case Storing(i) =>
      if i < |t.frame| && Slot(t.written, i) < |t.ring| then
        t.(ring := t.ring[Slot(t.written, i) := t.frame[i]],
           at := if i + 1 == FRAME_SIZE then Publishing else Storing(i + 1))
      else t
    case Publishing =>
      t.(written := t.written + 1, published := t.published + [t.frame], frame := [], at := Pushing)
  }

  function PlaybackNext(s: State, packed: int): State {
    s.(tape := TapeNext(s.tape, packed),
       epochFirst := if s.tape.at.Adopting? then s.tape.written else s.epochFirst,
       seenEpoch := if s.tape.at.Announcing? then s.tape.epoch else s.seenEpoch)
  }

  // ---- capture ----

  /** `rebase_capture_timing` */
  function Rebase(r: Reader, epoch: nat): Reader {
    r.(epoch := epoch, synchronized := false, delay := 0, starved := true)
  }

  /** One step of capture, given what its one shared load sees. */
  function ReaderNext(r: Reader, t: Tape, seenEpoch: nat, epochFirst: nat): Reader {
    match r.at
    case Away => r
    case Loaded(epoch) =>
      (if r.epoch != epoch then Rebase(r, epoch) else r).(at := if seenEpoch != epoch then Away else Seen)
    case Seen =>
      if r.synchronized then r.(at := Synchronized)
      else r.(frame := epochFirst, synchronized := true, at := Synchronized)
    case Synchronized => CheckWritten(r, t.written)
    case Copying(reference) =>
      if Slot(r.frame, |reference|) < |t.ring| then
        var more := reference + [t.ring[Slot(r.frame, |reference|)]];
        r.(at := if |more| == FRAME_SIZE then Copied(more) else Copying(more))
      else r
    case Copied(reference) =>
      if t.written >= r.frame + QUEUE_CAPACITY_FRAMES
      then r.(frame := t.written, delay := 0, starved := true, at := Away)
      else r.(frame := r.frame + 1, at := Away)
  }

  /** From the first load of written_frames_ to the start of the copy. */
  function CheckWritten(r: Reader, written: nat): Reader {
    if written <= r.frame then
      r.(starved := true, delay := if r.starved then r.delay else 0, at := Away)
    else
      var delay := if r.starved then REFERENCE_DELAY_FRAMES else r.delay;
      if delay > 0 then r.(starved := false, delay := delay - 1, at := Away)
      else if written >= r.frame + QUEUE_CAPACITY_FRAMES then
        r.(frame := written, delay := 0, starved := true, at := Away)
      else r.(starved := false, delay := delay, at := Copying([]))
  }

  /**
   Does this step break the pairing of capture and playback? A new epoch, a missing
   reference, or a writer found a lap ahead, before or during the copy.
   */
  predicate Breaks(s: State) {
    var r := s.reader;
    match r.at
    case Loaded(epoch) => r.epoch != epoch
    case Synchronized => s.tape.written <= r.frame || CheckWritten(r, s.tape.written).frame != r.frame
    case Copied(_) => s.tape.written >= r.frame + QUEUE_CAPACITY_FRAMES
    case _ => false
  }

  /** Does this step let a capture pass although its reference is there? */
  predicate PassesUnused(s: State) {
    !Breaks(s) && s.reader.at.Synchronized? && CheckWritten(s.reader, s.tape.written).at == Away
  }

  /** The filter gets the copy when the second check passes. */
  function CaptureNext(s: State): State {
    var r := s.reader;
    s.(reader := ReaderNext(r, s.tape, s.seenEpoch, s.epochFirst),
       passed := if Breaks(s) then 0 else if PassesUnused(s) then s.passed + 1 else s.passed,
       used := if r.at.Copied? && s.tape.written < r.frame + QUEUE_CAPACITY_FRAMES
               then s.used + [Use(r.frame, r.at.reference, r.epoch, s.passed)] else s.used)
  }

  function Next(s: State, a: Action): State {
    match a
    case RequestReset => s.(resetEpoch := s.resetEpoch + 1)
    case BeginPlayback =>
      if s.tape.at == Between then s.(tape := EnterPlayback(s.tape, s.resetEpoch)) else s
    case PlaybackStep(packed) => PlaybackNext(s, packed)
    case EndPlayback => if s.tape.at == Pushing then s.(tape := s.tape.(at := Between)) else s
    case BeginCapture =>
      if s.reader.at == Away then s.(reader := s.reader.(at := Loaded(s.resetEpoch))) else s
    case CaptureStep => CaptureNext(s)
  }

  function Run(acts: seq<Action>): State
    decreases |acts|
  {
    if acts == [] then Start() else Next(Run(acts[..|acts| - 1]), acts[|acts| - 1])
  }

  // ---- slots ----

  /** Row `a` ends where a later row begins or before. */
  lemma {:induction false} RowsDoNotOverlap(a: nat, b: nat, size: nat)
    requires a < b
    ensures a * size + size <= b * size
  {
    assert b * size == a * size + size + (b - a - 1) * size;
    assert (b - a - 1) * size >= 0;
  }

  /** Frames less than a ring apart never share a slot. */
  lemma {:induction false} SlotsApart(n: nat, i: nat, m: nat, j: nat)
    requires i < FRAME_SIZE && j < FRAME_SIZE
    requires n < m < n + QUEUE_CAPACITY_FRAMES || m < n < m + QUEUE_CAPACITY_FRAMES || (n == m && i != j)
    ensures Slot(n, i) != Slot(m, j)
  {
    var a, b := n % QUEUE_CAPACITY_FRAMES, m % QUEUE_CAPACITY_FRAMES;
    if n != m {
      ResiduesDiffer(if n < m then n else m, if n < m then m else n, QUEUE_CAPACITY_FRAMES);
      if a < b { RowsDoNotOverlap(a, b, FRAME_SIZE); } else { RowsDoNotOverlap(b, a, FRAME_SIZE); }
    }
  }

  lemma {:induction false} ResiduesDiffer(n: nat, m: nat, k: nat)
    requires n < m < n + k
    ensures n % k != m % k
  {
    if n % k == m % k {
      assert m - n == k * (m / k) - k * (n / k) == k * (m / k - n / k);
      NoMultipleBelow(k, m / k - n / k);
    }
  }

  // ---- the invariant ----

  /** Slot `n` of the ring holds the first `upto` samples of frame `f`. */
  ghost predicate HoldsFrame(ring: seq<Sample>, n: nat, f: seq<Sample>, upto: nat)
    requires |ring| == QUEUE_CAPACITY_FRAMES * FRAME_SIZE
    requires upto <= |f| == FRAME_SIZE
  {
    forall i :: 0 <= i < upto ==> ring[Slot(n, i)] == f[i]
  }

  ghost predicate Shaped(t: Tape) {
    && |t.ring| == QUEUE_CAPACITY_FRAMES * FRAME_SIZE
    && |t.published| == t.written
    && (forall n :: 0 <= n < |t.published| ==> |t.published[n]| == FRAME_SIZE)
    && match t.at
       case Storing(i) => i < FRAME_SIZE && |t.frame| == FRAME_SIZE
       case Publishing => |t.frame| == FRAME_SIZE
       case Adopting => t.frame == []
       case Announcing => t.frame == []
       case _ => |t.frame| < FRAME_SIZE
  }

  /** Every published frame less than a ring behind the writer is intact. */
  ghost predicate RingIntact(t: Tape)
    requires Shaped(t)
  {
    && (forall n {:trigger t.published[n]} :: 0 <= n < t.written < n + QUEUE_CAPACITY_FRAMES ==>
          HoldsFrame(t.ring, n, t.published[n], FRAME_SIZE))
    && (t.at.Storing? ==> HoldsFrame(t.ring, t.written, t.frame, t.at.i))
    && (t.at.Publishing? ==> HoldsFrame(t.ring, t.written, t.frame, FRAME_SIZE))
  }

  /** What capture has copied is the frame it reads, unless the writer has lapped it since. */
  ghost predicate CopyTrue(r: Reader, t: Tape)
    requires Shaped(t)
  {
    match r.at
    case Copying(ref) =>
      |ref| < FRAME_SIZE && r.frame < t.written && r.synchronized &&
      (t.written < r.frame + QUEUE_CAPACITY_FRAMES ==> ref == t.published[r.frame][..|ref|])
    case Copied(ref) =>
      |ref| == FRAME_SIZE && r.frame < t.written && r.synchronized &&
      (t.written < r.frame + QUEUE_CAPACITY_FRAMES ==> ref == t.published[r.frame])
    case Synchronized => r.synchronized
    case _ => true
  }

  ghost predicate AllSince(f: seq<Sample>, epoch: nat) {
    forall i :: 0 <= i < |f| ==> f[i].epoch >= epoch
  }

  /** Frames from `first` on, the one being filled included, hold only samples pushed in `epoch` or later. */
  ghost predicate FreshFrom(t: Tape, first: nat, epoch: nat) {
    && first <= t.written
    && epoch <= t.epoch
    && (forall n :: first <= n < |t.published| ==> AllSince(t.published[n], epoch))
    && AllSince(t.frame, epoch)
  }

  ghost predicate Epochs(s: State) {
    && s.seenEpoch <= s.tape.epoch <= s.resetEpoch
    && s.reader.epoch <= s.resetEpoch
    && (s.reader.at.Loaded? ==> s.reader.epoch <= s.reader.at.epoch <= s.resetEpoch)
    // what the announced epoch promises, and the one about to be announced
    && FreshFrom(s.tape, s.epochFirst, s.seenEpoch)
    && (s.tape.at.Announcing? ==> FreshFrom(s.tape, s.epochFirst, s.tape.epoch))
    // what capture relies on
    && (s.reader.at.Seen? ==> s.reader.epoch <= s.seenEpoch)
    && (s.reader.synchronized ==> FreshFrom(s.tape, s.reader.frame, s.reader.epoch))
  }

  /** Use `u` is the published frame of its number, pushed in its epoch or later. */
  ghost predicate UseTrue(u: Use, published: seq<seq<Sample>>) {
    u.frame < |published| && u.reference == published[u.frame] && AllSince(u.reference, u.epoch)
  }

  ghost predicate UsesTrue(used: seq<Use>, published: seq<seq<Sample>>) {
    forall u :: 0 <= u < |used| ==> UseTrue(used[u], published)
  }

  /** Uses never go back to an earlier epoch, and ascend within one. */
  ghost predicate UsesAscend(used: seq<Use>) {
    forall u, v :: 0 <= u < v < |used| ==>
      used[u].epoch < used[v].epoch || (used[u].epoch == used[v].epoch && used[u].frame < used[v].frame)
  }

  /** Everything used lies behind the reader. */
  ghost predicate UsesBehind(used: seq<Use>, r: Reader) {
    forall u :: 0 <= u < |used| ==>
      used[u].epoch < r.epoch || (r.synchronized && used[u].epoch == r.epoch && used[u].frame < r.frame)
  }

  /** The delay still owed makes up for the captures already held back. */
  ghost predicate DelayCounted(r: Reader, passed: nat) {
    && (r.starved ==> passed == 0 && !r.at.Copying? && !r.at.Copied?)
    && (!r.starved ==> passed + r.delay == REFERENCE_DELAY_FRAMES)
    && (r.at.Copying? || r.at.Copied? ==> r.delay == 0)
  }

  /** Every use came after exactly the captures to be held back. */
  ghost predicate UsesHeldBack(used: seq<Use>) {
    forall u :: 0 <= u < |used| ==> used[u].heldBack == REFERENCE_DELAY_FRAMES
  }

  ghost predicate Inv(s: State) {
    && Shaped(s.tape) && RingIntact(s.tape)
    && CopyTrue(s.reader, s.tape)
    && Epochs(s)
    && UsesTrue(s.used, s.tape.published) && UsesAscend(s.used) && UsesBehind(s.used, s.reader)
    && DelayCounted(s.reader, s.passed) && UsesHeldBack(s.used)
  }

  // ---- playback keeps the ring ----

  /** Storing one sample of the next frame touches no frame capture may still read. */
  lemma {:induction false} StoreKeepsFrames(ring: seq<Sample>, written: nat, i: nat, x: Sample, n: nat, f: seq<Sample>)
    requires |ring| == QUEUE_CAPACITY_FRAMES * FRAME_SIZE && i < FRAME_SIZE && |f| == FRAME_SIZE
    requires n < written < n + QUEUE_CAPACITY_FRAMES && HoldsFrame(ring, n, f, FRAME_SIZE)
    ensures HoldsFrame(ring[Slot(written, i) := x], n, f, FRAME_SIZE)
  {
    forall j | 0 <= j < FRAME_SIZE
      ensures ring[Slot(written, i) := x][Slot(n, j)] == f[j]
    {
      SlotsApart(n, j, written, i);
    }
  }

  lemma {:induction false} StoreExtends(ring: seq<Sample>, written: nat, i: nat, f: seq<Sample>)
    requires |ring| == QUEUE_CAPACITY_FRAMES * FRAME_SIZE && i < FRAME_SIZE && |f| == FRAME_SIZE
    requires HoldsFrame(ring, written, f, i)
    ensures HoldsFrame(ring[Slot(written, i) := f[i]], written, f, i + 1)
  {
    var r := ring[Slot(written, i) := f[i]];
    forall j | 0 <= j < i + 1
      ensures r[Slot(written, j)] == f[j]
    {
      if j < i { SlotsApart(written, j, written, i); }
    }
  }

  lemma {:induction false} TapeKeeps(t: Tape, packed: int)
    requires Shaped(t) && RingIntact(t)
    ensures Shaped(TapeNext(t, packed)) && RingIntact(TapeNext(t, packed))
  {
    var t' := TapeNext(t, packed);
    forall n | 0 <= n < t'.written < n + QUEUE_CAPACITY_FRAMES
      ensures Shaped(t') && HoldsFrame(t'.ring, n, t'.published[n], FRAME_SIZE)
    {
      if n < t.written {
        assert t'.published[n] == t.published[n];
        if t.at.Storing? { StoreKeepsFrames(t.ring, t.written, t.at.i, t.frame[t.at.i], n, t.published[n]); }
      }
    }
    if t.at.Storing? { StoreExtends(t.ring, t.written, t.at.i, t.frame); }
  }

  lemma {:induction false} TapeKeepsCopy(t: Tape, packed: int, r: Reader)
    requires Shaped(t) && Shaped(TapeNext(t, packed)) && CopyTrue(r, t)
    ensures CopyTrue(r, TapeNext(t, packed))
  {
    var t' := TapeNext(t, packed);
    assert r.frame < t.written ==> t'.published[r.frame] == t.published[r.frame];
  }

  /** Promises about the frames from some frame on survive every playback step. */
  lemma {:induction false} TapeKeepsFresh(t: Tape, packed: int, first: nat, epoch: nat)
    requires FreshFrom(t, first, epoch) && |t.published| == t.written
    ensures FreshFrom(TapeNext(t, packed), first, epoch)
  {
  }

  lemma {:induction false} TapeKeepsUses(t: Tape, packed: int, used: seq<Use>)
    requires UsesTrue(used, t.published)
    ensures UsesTrue(used, TapeNext(t, packed).published)
  {
    var p := TapeNext(t, packed).published;
    forall u | 0 <= u < |used|
      ensures UseTrue(used[u], p)
    {
      assert UseTrue(used[u], t.published);
    }
  }

  lemma {:induction false} PlaybackKeepsEpochs(s: State, packed: int)
    requires Shaped(s.tape) && Epochs(s)
    ensures Epochs(PlaybackNext(s, packed))
  {
    TapeKeepsFresh(s.tape, packed, s.epochFirst, s.seenEpoch);
    if s.tape.at.Announcing? { TapeKeepsFresh(s.tape, packed, s.epochFirst, s.tape.epoch); }
    if s.reader.synchronized { TapeKeepsFresh(s.tape, packed, s.reader.frame, s.reader.epoch); }
  }

  lemma {:induction false} PlaybackKeeps(s: State, packed: int)
    requires Inv(s)
    ensures Inv(PlaybackNext(s, packed))
  {
    TapeKeeps(s.tape, packed);
    TapeKeepsCopy(s.tape, packed, s.reader);
    TapeKeepsUses(s.tape, packed, s.used);
    PlaybackKeepsEpochs(s, packed);
  }

  // ---- capture ----

  /** The sample loaded next is the right one, unless the writer has lapped. */
  lemma {:induction false} ReaderKeepsCopy(r: Reader, t: Tape, seenEpoch: nat, epochFirst: nat)
    requires Shaped(t) && RingIntact(t) && CopyTrue(r, t)
    ensures CopyTrue(ReaderNext(r, t, seenEpoch, epochFirst), t)
  {
    if r.at.Copying? && t.written < r.frame + QUEUE_CAPACITY_FRAMES {
      var ref, f := r.at.reference, t.published[r.frame];
      assert HoldsFrame(t.ring, r.frame, f, FRAME_SIZE);
      assert ref + [t.ring[Slot(r.frame, |ref|)]] == f[..|ref| + 1];
      assert f[..FRAME_SIZE] == f;
    }
  }

  lemma {:induction false} CaptureKeepsEpochs(s: State)
    requires Shaped(s.tape) && CopyTrue(s.reader, s.tape) && Epochs(s)
    ensures Epochs(CaptureNext(s))
  {
  }

  /** A use is appended only when the copy is the whole frame, and lies behind the reader afterwards. */
  lemma {:induction false} CaptureKeepsUses(s: State)
    requires Inv(s)
    ensures var t := CaptureNext(s);
      UsesTrue(t.used, t.tape.published) && UsesAscend(t.used) && UsesBehind(t.used, t.reader)
  {
    var r := s.reader;
    if r.at.Copied? && s.tape.written < r.frame + QUEUE_CAPACITY_FRAMES {
      assert UseTrue(Use(r.frame, r.at.reference, r.epoch, s.passed), s.tape.published);
    }
  }

  lemma {:induction false} CaptureKeepsDelay(s: State)
    requires DelayCounted(s.reader, s.passed) && UsesHeldBack(s.used)
    ensures DelayCounted(CaptureNext(s).reader, CaptureNext(s).passed) && UsesHeldBack(CaptureNext(s).used)
  {
  }

  lemma {:induction false} CaptureKeeps(s: State)
    requires Inv(s)
    ensures Inv(CaptureNext(s))
  {
    ReaderKeepsCopy(s.reader, s.tape, s.seenEpoch, s.epochFirst);
    CaptureKeepsEpochs(s);
    CaptureKeepsUses(s);
    CaptureKeepsDelay(s);
  }

  // ---- whole runs ----

  /** Entering or leaving a playback callback moves only where playback is. */
  lemma {:induction false} EnterKeeps(s: State)
    requires Inv(s) && s.tape.at == Between
    ensures Inv(s.(tape := EnterPlayback(s.tape, s.resetEpoch)))
  {
    var t := EnterPlayback(s.tape, s.resetEpoch);
    assert t.ring == s.tape.ring && t.written == s.tape.written && t.published == s.tape.published;
    assert Shaped(t) && RingIntact(t);
    assert CopyTrue(s.reader, t);
  }

  lemma {:induction false} LeaveKeeps(s: State)
    requires Inv(s) && s.tape.at == Pushing
    ensures Inv(s.(tape := s.tape.(at := Between)))
  {
    var t := s.tape.(at := Between);
    assert Shaped(t) && RingIntact(t);
    assert CopyTrue(s.reader, t);
  }

  lemma {:induction false} BeginCaptureKeeps(s: State)
    requires Inv(s) && s.reader.at == Away
    ensures Inv(s.(reader := s.reader.(at := Loaded(s.resetEpoch))))
  {
  }

  lemma {:induction false} ResetKeeps(s: State)
    requires Inv(s)
    ensures Inv(s.(resetEpoch := s.resetEpoch + 1))
  {
  }

  lemma {:induction false} NextKeeps(s: State, a: Action)
    requires Inv(s)
    ensures Inv(Next(s, a))
  {
    match a
    case PlaybackStep(packed) => PlaybackKeeps(s, packed);
    case CaptureStep => CaptureKeeps(s);
    case RequestReset => ResetKeeps(s);
    case BeginPlayback => if s.tape.at == Between { EnterKeeps(s); }
    case EndPlayback => if s.tape.at == Pushing { LeaveKeeps(s); }
    case BeginCapture => if s.reader.at == Away { BeginCaptureKeeps(s); }
  }

  lemma {:induction false} RunKeeps(acts: seq<Action>)
    ensures Inv(Run(acts))
    decreases |acts|
  {
    if acts == [] {
    } else {
      RunKeeps(acts[..|acts| - 1]);
      NextKeeps(Run(acts[..|acts| - 1]), acts[|acts| - 1]);
    }
  }

  /**
   In every interleaving each reference handed to the filter is exactly the frame playback
   published under that number, never a mix; all its samples were pushed after playback
   adopted the epoch capture was in; and one epoch's frames are used in ascending order.
   */
  lemma {:induction false} NoReferenceIsTorn(acts: seq<Action>)
    ensures UsesTrue(Run(acts).used, Run(acts).tape.published)
    ensures UsesAscend(Run(acts).used)
  {
    RunKeeps(acts);
  }

  /**
   In every interleaving, before each reference used exactly REFERENCE_DELAY_FRAMES captures
   were let pass since the last new epoch, missing reference or lap: capture is never paired
   with a reference that has not yet reached the speakers, and never falls further behind.
   */
  lemma {:induction false} EveryReferenceIsHeldBack(acts: seq<Action>)
    ensures UsesHeldBack(Run(acts).used)
  {
    RunKeeps(acts);
  }

  // ---- an undisturbed capture does use its frame ----

  function CaptureSteps(s: State, n: nat): State
    decreases n
  {
    if n == 0 then s else CaptureSteps(CaptureNext(s), n - 1)
  }

  /** The tape as a copy in progress needs it: intact, and the frame not lapped. */
  ghost predicate Readable(s: State) {
    && Shaped(s.tape) && RingIntact(s.tape)
    && s.reader.frame < s.tape.written < s.reader.frame + QUEUE_CAPACITY_FRAMES
  }

  /** One load of the copy: either one more sample, or the copy is complete. */
  lemma {:induction false} CopyStep(s: State)
    requires Readable(s) && CopyTrue(s.reader, s.tape) && s.reader.at.Copying?
    ensures var t := CaptureNext(s);
      && t.tape == s.tape && t.used == s.used
      && t.reader.frame == s.reader.frame && t.reader.epoch == s.reader.epoch
      && CopyTrue(t.reader, t.tape)
      && (|s.reader.at.reference| + 1 < FRAME_SIZE ==>
            t.reader.at.Copying? && |t.reader.at.reference| == |s.reader.at.reference| + 1)
      && (|s.reader.at.reference| + 1 == FRAME_SIZE ==> t.reader.at.Copied?)
  {
    ReaderKeepsCopy(s.reader, s.tape, s.seenEpoch, s.epochFirst);
  }

  lemma {:induction false} CopyFinishes(s: State)
    requires Readable(s) && CopyTrue(s.reader, s.tape) && s.reader.at.Copying?
    ensures var t := CaptureSteps(s, FRAME_SIZE - |s.reader.at.reference| + 1);
      t.used == s.used + [Use(s.reader.frame, s.tape.published[s.reader.frame], s.reader.epoch, s.passed)]
    decreases FRAME_SIZE - |s.reader.at.reference|
  {
    var t := CaptureNext(s);
    var left := FRAME_SIZE - |s.reader.at.reference|;
    CopyStep(s);
    assert CaptureSteps(s, left + 1) == CaptureSteps(t, left);
    if left > 1 {
      CopyFinishes(t);
    } else {
      CopyEnds(t);
    }
  }

  lemma {:induction false} CopyEnds(s: State)
    requires Readable(s) && CopyTrue(s.reader, s.tape) && s.reader.at.Copied?
    ensures CaptureSteps(s, 1).used ==
      s.used + [Use(s.reader.frame, s.tape.published[s.reader.frame], s.reader.epoch, s.passed)]
  {
    assert CaptureSteps(s, 1) == CaptureSteps(CaptureNext(s), 0);
  }

  /** Capture is at the first check, owes no delay, and the frame it wants is there and not lapped. */
  ghost predicate ReadyToCopy(s: State) {
    && Readable(s)
    && s.reader.at == Synchronized && !s.reader.starved && s.reader.delay == 0
  }

  /** From such a point of any run, capture left to itself hands exactly that frame to the filter. */
  lemma {:induction false} QuietCaptureUsesTheFrame(acts: seq<Action>)
    requires ReadyToCopy(Run(acts))
    ensures var s := Run(acts);
      CaptureSteps(s, FRAME_SIZE + 2).used ==
        s.used + [Use(s.reader.frame, s.tape.published[s.reader.frame], s.reader.epoch, s.passed)]
  {
    RunKeeps(acts);
    ReadyCopies(Run(acts));
  }

  lemma {:induction false} ReadyCopies(s: State)
    requires ReadyToCopy(s) && CopyTrue(s.reader, s.tape)
    ensures CaptureSteps(s, FRAME_SIZE + 2).used ==
      s.used + [Use(s.reader.frame, s.tape.published[s.reader.frame], s.reader.epoch, s.passed)]
  {
    var t := CaptureNext(s);
    assert t.reader.at == Copying([]);
    assert CaptureSteps(s, FRAME_SIZE + 2) == CaptureSteps(t, FRAME_SIZE + 1);
    CopyFinishes(t);
  }
}
