/**
 Which shared streams the viewer watches. The set of watched streams, the primary one, the
 one whose sound plays, the router's open streams and the running decoders are separate
 variables that every handler has to move together, on platforms with one decoder and on
 platforms with many.
 */
module WatchSet {

  /** A stream id: the two top bits of 32 say which kind of share it is. */
  type StreamId = x: int | 0 <= x < 0x1_0000_0000

  predicate IsScreen(id: StreamId) { id / 0x4000_0000 == 0 }

  datatype State = State(watched: set<StreamId>, viewing: StreamId, audio: StreamId,
                         open: set<StreamId>, decoders: set<StreamId>)

  const IDLE := State({}, 0, 0, {}, {})

  /** What the handlers must keep together. */
  ghost predicate Consistent(s: State) {
    && s.open == s.watched
    && 0 !in s.watched
    && (s.viewing == 0 <==> s.watched == {})
    && (s.viewing != 0 ==> s.viewing in s.watched)
    && (s.audio != 0 <==> exists id :: id in s.watched && IsScreen(id))
    && (s.audio != 0 ==> s.audio in s.watched && IsScreen(s.audio))
  }

  // ---- what each handler does ----

  datatype Event =
    | Watch(id: StreamId)
    | Add(id: StreamId)
    | Remove(id: StreamId)
    | Toggle(id: StreamId)
    | Single(id: StreamId)
    | Stop
    | ClearAll

  /** Where the sound goes when its screen share leaves: any other watched screen, else nowhere. */
  ghost predicate Refocused(watched: set<StreamId>, audio: StreamId) {
    if exists id :: id in watched && IsScreen(id) then audio in watched && IsScreen(audio) else audio == 0
  }

  function Only(s: State, id: StreamId): State {
    State({id}, id, if IsScreen(id) then id else 0, {id}, s.decoders)
  }

  function AddMulti(s: State, id: StreamId): State {
    if id in s.watched then s
    else State(s.watched + {id}, id, if IsScreen(id) then id else s.audio, s.open + {id}, s.decoders + {id})
  }

  /** A single-decoder platform starts no per-stream decoder; it only stops the one it showed. */
  function WatchSingle(s: State, id: StreamId): State {
    if id in s.watched then s
    else Only(s.(decoders := if s.viewing != 0 && s.viewing != id then s.decoders - {s.viewing} else s.decoders), id)
  }

  ghost predicate Removed(s: State, id: StreamId, t: State) {
    if id !in s.watched then t == s
    else
      && t.watched == s.watched - {id}
      && t.open == s.open - {id}
      && t.decoders == s.decoders - {id}
      && (if t.watched == {} then t.viewing == 0 else t.viewing in t.watched)
      && (if s.audio == id then Refocused(t.watched, t.audio) else t.audio == s.audio)
  }

  /** `known` are the streams currently offered; `multi` says whether the platform has many decoders. */
  ghost predicate Added(multi: bool, known: set<StreamId>, s: State, id: StreamId, t: State) {
    if id == 0 || id !in known then t == s
    else t == if multi then AddMulti(s, id) else WatchSingle(s, id)
  }

  ghost predicate Step(multi: bool, known: set<StreamId>, s: State, e: Event, t: State) {
    match e
    case Watch(id) =>
      if id == 0 then t == Cleared(s) else Added(multi, known, s, id, t)
    case Add(id) => Added(multi, known, s, id, t)
    case Remove(id) => Removed(s, id, t)
    case Toggle(id) => if id in s.watched then Removed(s, id, t) else Added(multi, known, s, id, t)
    case Single(id) => t == if id == 0 then State({}, 0, 0, {}, s.decoders) else Only(s, id)
    case Stop => t == Cleared(s)
    case ClearAll => t == Cleared(s)
  }

  /** Every watched stream's decoder is stopped. */
  function Cleared(s: State): State {
    State({}, 0, 0, {}, s.decoders - s.watched)
  }

  // ---- the handlers ----

  class Viewer {
    const multi: bool
    var known: set<StreamId>
    var watched: set<StreamId>
    var viewing: StreamId
    var audio: StreamId
    var open: set<StreamId>
    var decoders: set<StreamId>

    ghost function Abs(): State
      reads this
    {
      State(watched, viewing, audio, open, decoders)
    }

    constructor (multiStream: bool)
      ensures multi == multiStream && Abs() == IDLE
    {
      multi := multiStream;
      known, watched, viewing, audio, open, decoders := {}, {}, 0, 0, {}, {};
    }

    method WatchSharer(id: StreamId)
      modifies `watched, `viewing, `audio, `open, `decoders
      ensures Step(multi, known, old(Abs()), Watch(id), Abs())
    {
      if id == 0 {
        TearDown();
        return;
      }
      if id !in known { return; }
      if multi {
        AddWatch(id);
        return;
      }
      WatchOnly(id);
    }

    method AddWatch(id: StreamId)
      modifies `watched, `viewing, `audio, `open, `decoders
      ensures Step(multi, known, old(Abs()), Add(id), Abs())
    {
      if id == 0 || id !in known { return; }
      if !multi {
        WatchOnly(id);
        return;
      }
      if id in watched { return; }
      watched := watched + {id};
      open := open + {id};
      decoders := decoders + {id};
      viewing := id;
      if IsScreen(id) { audio := id; }
    }

    /** The single-decoder path of `watch_sharer`: replace whatever is watched. */
    method WatchOnly(id: StreamId)
      modifies `watched, `viewing, `audio, `open, `decoders
      ensures Abs() == WatchSingle(old(Abs()), id)
    {
      if id in watched { return; }
      if viewing != 0 && viewing != id { decoders := decoders - {viewing}; }
      watched := {id};
      viewing := id;
      audio := if IsScreen(id) then id else 0;
      open := {id};
    }

    method RemoveWatch(id: StreamId)
      modifies `watched, `viewing, `audio, `open, `decoders
      ensures Step(multi, known, old(Abs()), Remove(id), Abs())
    {
      if id !in watched { return; }
      watched := watched - {id};
      decoders := decoders - {id};
      open := open - {id};
      if watched == {} {
        viewing := 0;
      } else {
        var primary :| primary in watched;
        viewing := primary;
      }
      if audio == id { RefocusStreamAudio(); }
    }

    method RefocusStreamAudio()
      modifies `audio
      ensures Refocused(watched, audio)
    {
      var next: StreamId := 0;
      var todo := watched;
      while todo != {}
        invariant todo <= watched && next == 0
        invariant forall id :: id in watched && id !in todo ==> !IsScreen(id)
        decreases todo
      {
        var id :| id in todo;
        if IsScreen(id) {
          next := id;
          break;
        }
        todo := todo - {id};
      }
      audio := next;
    }

    method ToggleWatch(id: StreamId)
      modifies `watched, `viewing, `audio, `open, `decoders
      ensures Step(multi, known, old(Abs()), Toggle(id), Abs())
    {
      if id in watched { RemoveWatch(id); } else { AddWatch(id); }
    }

    method SetSingleWatched(id: StreamId)
      modifies `watched, `viewing, `audio, `open
      ensures Step(multi, known, old(Abs()), Single(id), Abs())
    {
      watched := if id != 0 then {id} else {};
      open := {};
      if id != 0 { open := {id}; }
      viewing := id;
      audio := if IsScreen(id) then id else 0;
    }

    method StopWatching()
      modifies `watched, `viewing, `audio, `open, `decoders
      ensures Step(multi, known, old(Abs()), Stop, Abs())
    {
      TearDown();
    }

    /** The channel or the connection is gone: nothing is on offer any more. */
    method ClearAllSharers()
      modifies `known, `watched, `viewing, `audio, `open, `decoders
      ensures Step(multi, old(known), old(Abs()), ClearAll, Abs()) && known == {}
    {
      TearDown();
      known := {};
    }

    /** Stops the decoder of every watched stream and forgets them all. */
    method TearDown()
      modifies `watched, `viewing, `audio, `open, `decoders
      ensures Abs() == Cleared(old(Abs()))
    {
      var toStop := watched;
      watched := {};
      var todo := toStop;
      while todo != {}
        invariant watched == {} && todo <= toStop && decoders == old(decoders) - (toStop - todo)
        decreases todo
      {
        var id :| id in todo;
        decoders := decoders - {id};
        todo := todo - {id};
      }
      assert toStop - todo == toStop;
      open := {};
      viewing, audio := 0, 0;
    }
  }

  // ---- consistency over every run ----

  lemma {:induction false} RemovedKeeps(s: State, id: StreamId, t: State)
    requires Consistent(s) && Removed(s, id, t)
    ensures Consistent(t)
  {
    if id in s.watched {
      if exists x :: x in t.watched && IsScreen(x) {
        var x :| x in t.watched && IsScreen(x);
        assert x in s.watched;
      }
      if s.audio != id && s.audio != 0 { assert s.audio in t.watched; }
    }
  }

  lemma {:induction false} AddedKeeps(s: State, id: StreamId)
    requires Consistent(s) && id != 0
    ensures Consistent(AddMulti(s, id)) && Consistent(Only(s, id)) && Consistent(WatchSingle(s, id))
  {
    var t := AddMulti(s, id);
    assert Only(s, id).watched == {id} && WatchSingle(s, id).watched in {{id}, s.watched};
    assert id in t.watched && id in Only(s, id).watched;
    if s.audio != 0 { assert s.audio in t.watched; }
    if !IsScreen(id) && exists x :: x in t.watched && IsScreen(x) {
      var x :| x in t.watched && IsScreen(x);
      assert x in s.watched;
    }
  }

  lemma {:induction false} StepKeeps(multi: bool, known: set<StreamId>, s: State, e: Event, t: State)
    requires Consistent(s) && Step(multi, known, s, e, t)
    ensures Consistent(t)
  {
    match e
    case Remove(id) => RemovedKeeps(s, id, t);
    case Toggle(id) =>
      if id in s.watched { RemovedKeeps(s, id, t); }
      else if id != 0 { AddedKeeps(s, id); }
    case Watch(id) => if id != 0 { AddedKeeps(s, id); }
    case Add(id) => if id != 0 { AddedKeeps(s, id); }
    case Single(id) => if id != 0 { AddedKeeps(s, id); }
    case Stop =>
    case ClearAll =>
  }

  /** One handler call: what was on offer, what was asked, and the state it left. */
  datatype Call = Call(known: set<StreamId>, event: Event, after: State)

  function After(calls: seq<Call>): State {
    if calls == [] then IDLE else calls[|calls| - 1].after
  }

  /** A run: each call is a step from the state the calls before it left. */
  ghost predicate IsRun(multi: bool, calls: seq<Call>)
    decreases |calls|
  {
    calls == [] ||
    var n := |calls| - 1;
    IsRun(multi, calls[..n]) && Step(multi, calls[n].known, After(calls[..n]), calls[n].event, calls[n].after)
  }

  /** After every handler of every run, on either kind of platform, the five variables agree. */
  lemma {:induction false} EveryRunIsConsistent(multi: bool, calls: seq<Call>)
    requires IsRun(multi, calls)
    ensures Consistent(After(calls))
    decreases |calls|
  {
    if calls == [] {
    } else {
      var n := |calls| - 1;
      EveryRunIsConsistent(multi, calls[..n]);
      StepKeeps(multi, calls[n].known, After(calls[..n]), calls[n].event, calls[n].after);
    }
  }

  // ---- every handler does what was asked ----

  /** `id` is watched afterwards; newly watched it is the primary, has the sound if it is a screen, and joins or replaces the others. */
  ghost predicate NowWatched(multi: bool, s: State, id: StreamId, t: State) {
    && id in t.watched
    && (id in s.watched ==> t == s)
    && (id !in s.watched ==>
          && t.viewing == id
          && t.watched == (if multi then s.watched + {id} else {id})
          && (IsScreen(id) ==> t.audio == id)
          && (!IsScreen(id) ==> t.audio == if multi then s.audio else 0)
          && (multi ==> t.decoders == s.decoders + {id})
          && (!multi ==> t.decoders <= s.decoders && (s.viewing != 0 ==> s.viewing !in t.decoders)))
  }

  /** `id` is not watched afterwards, every other stream is as before, and the sound stays unless it was on `id`. */
  ghost predicate NoLongerWatched(s: State, id: StreamId, t: State) {
    && t.watched == s.watched - {id}
    && (id !in s.watched ==> t == s)
    && (id in s.watched ==> t.decoders == s.decoders - {id})
    && (s.audio != id ==> t.audio == s.audio)
  }

  ghost predicate NothingWatched(t: State) {
    t.watched == {} && t.open == {} && t.viewing == 0 && t.audio == 0
  }

  ghost predicate Honoured(multi: bool, known: set<StreamId>, s: State, e: Event, t: State) {
    match e
    case Watch(id) =>
      if id == 0 then NothingWatched(t) && t.decoders == s.decoders - s.watched
      else if id in known then NowWatched(multi, s, id, t) else t == s
    case Add(id) => if id != 0 && id in known then NowWatched(multi, s, id, t) else t == s
    case Remove(id) => NoLongerWatched(s, id, t)
    case Toggle(id) =>
      if id in s.watched then NoLongerWatched(s, id, t)
      else if id != 0 && id in known then NowWatched(multi, s, id, t) else t == s
    case Single(id) =>
      && t.watched == Chosen(id) && t.viewing == id && t.decoders == s.decoders
      && t.audio == if IsScreen(id) then id else 0
    case Stop => NothingWatched(t) && t.decoders == s.decoders - s.watched
    case ClearAll => NothingWatched(t) && t.decoders == s.decoders - s.watched
  }

  lemma {:induction false} StepIsHonoured(multi: bool, known: set<StreamId>, s: State, e: Event, t: State)
    requires Consistent(s) && Step(multi, known, s, e, t)
    ensures Honoured(multi, known, s, e, t)
  {
  }

  /**
   In every run, every call does what was asked: watching a stream on offer leaves it
   watched, as the primary and with the sound where that is its place, beside the others
   with many decoders and instead of them with one; removing it leaves exactly the others.
   */
  lemma {:induction false} EveryCallIsHonoured(multi: bool, calls: seq<Call>, i: nat)
    requires IsRun(multi, calls) && i < |calls|
    ensures Honoured(multi, calls[i].known, After(calls[..i]), calls[i].event, calls[i].after)
    decreases |calls|
  {
    var n := |calls| - 1;
    if i < n {
      EveryCallIsHonoured(multi, calls[..n], i);
      assert calls[..n][..i] == calls[..i];
    } else {
      EveryRunIsConsistent(multi, calls[..n]);
      StepIsHonoured(multi, calls[n].known, After(calls[..n]), calls[n].event, calls[n].after);
    }
  }

  // ---- the decoders ----

  function Chosen(id: StreamId): set<StreamId> { if id == 0 then {} else {id} }

  ghost predicate DecodersMatch(s: State) { s.decoders == s.watched }

  /** `set_single_watched` starts and stops no decoder: it may only name what is watched already. */
  ghost predicate SingleIsNoChange(calls: seq<Call>, i: nat)
    requires i < |calls|
  {
    calls[i].event.Single? ==> After(calls[..i]).watched == Chosen(calls[i].event.id)
  }

  lemma {:induction false} DecodersStep(known: set<StreamId>, s: State, e: Event, t: State)
    requires Consistent(s) && DecodersMatch(s) && Step(true, known, s, e, t)
    ensures DecodersMatch(t) <==> (e.Single? ==> s.watched == Chosen(e.id))
  {
  }

  ghost predicate AlwaysMatch(calls: seq<Call>) {
    forall i :: 0 <= i <= |calls| ==> DecodersMatch(After(calls[..i]))
  }

  ghost predicate SinglesAreNoChange(calls: seq<Call>) {
    forall i :: 0 <= i < |calls| ==> SingleIsNoChange(calls, i)
  }

  lemma {:induction false} AlwaysMatchSplits(calls: seq<Call>)
    requires calls != []
    ensures AlwaysMatch(calls) <==> AlwaysMatch(calls[..|calls| - 1]) && DecodersMatch(After(calls))
    ensures AlwaysMatch(calls[..|calls| - 1]) ==> DecodersMatch(After(calls[..|calls| - 1]))
  {
    var n := |calls| - 1;
    assert calls[..n + 1] == calls && calls[..n][..n] == calls[..n];
    if AlwaysMatch(calls) {
      forall i | 0 <= i <= n
        ensures DecodersMatch(After(calls[..n][..i]))
      {
        assert calls[..n][..i] == calls[..i];
      }
    }
    if AlwaysMatch(calls[..n]) && DecodersMatch(After(calls)) {
      forall i | 0 <= i <= n
        ensures DecodersMatch(After(calls[..i]))
      {
        assert calls[..n][..i] == calls[..i];
      }
    }
  }

  lemma {:induction false} SinglesSplit(calls: seq<Call>)
    requires calls != []
    ensures SinglesAreNoChange(calls) <==>
      SinglesAreNoChange(calls[..|calls| - 1]) && SingleIsNoChange(calls, |calls| - 1)
  {
    var n := |calls| - 1;
    forall i | 0 <= i < n
      ensures SingleIsNoChange(calls[..n], i) == SingleIsNoChange(calls, i)
    {
      assert calls[..n][..i] == calls[..i];
    }
  }

  /**
   With many decoders, over every run: exactly the watched streams have one after every
   call, if and only if no call of `set_single_watched` changes what is watched.
   */
  lemma {:induction false} DecodersFollow(calls: seq<Call>)
    requires IsRun(true, calls)
    ensures AlwaysMatch(calls) <==> SinglesAreNoChange(calls)
    decreases |calls|
  {
    if calls == [] {
    } else {
      var n := |calls| - 1;
      DecodersFollow(calls[..n]);
      EveryRunIsConsistent(true, calls[..n]);
      AlwaysMatchSplits(calls);
      SinglesSplit(calls);
      if DecodersMatch(After(calls[..n])) {
        DecodersStep(calls[n].known, After(calls[..n]), calls[n].event, calls[n].after);
      }
    }
  }

  /** A run in which it does change what is watched, and the old stream's decoder stays. */
  lemma {:induction false} SingleCanLeaveADecoder()
    ensures var one := State({1}, 1, 1, {1}, {1}); var two := State({2}, 2, 2, {2}, {1});
      IsRun(true, [Call({1, 2}, Add(1), one), Call({1, 2}, Single(2), two)])
  {
    var one := State({1}, 1, 1, {1}, {1});
    var two := State({2}, 2, 2, {2}, {1});
    var calls := [Call({1, 2}, Add(1), one), Call({1, 2}, Single(2), two)];
    assert IDLE.watched + {1} == {1};
    assert calls[..1] == [Call({1, 2}, Add(1), one)] && calls[..1][..0] == [];
    assert IsRun(true, calls[..1]);
  }

  /** With one decoder the handlers start none of their own. */
  lemma {:induction false} OneDecoderIsLeftAlone(calls: seq<Call>)
    requires IsRun(false, calls)
    ensures After(calls).decoders == {}
    decreases |calls|
  {
    if calls == [] {
    } else {
      OneDecoderIsLeftAlone(calls[..|calls| - 1]);
    }
  }

  /** With one decoder, at most one stream is watched. */
  lemma {:induction false} OneAtATime(calls: seq<Call>)
    requires IsRun(false, calls)
    ensures |After(calls).watched| <= 1
    decreases |calls|
  {
    if calls == [] {
    } else {
      var n := |calls| - 1;
      OneAtATime(calls[..n]);
      StepWatchesLessOrOne(calls[n].known, After(calls[..n]), calls[n].event, calls[n].after);
    }
  }

  lemma {:induction false} StepWatchesLessOrOne(known: set<StreamId>, s: State, e: Event, t: State)
    requires Step(false, known, s, e, t) && |s.watched| <= 1
    ensures |t.watched| <= 1
  {
    assert t.watched <= s.watched || t.watched == {} || exists id :: t.watched == {id};
    if t.watched <= s.watched { assert s.watched == t.watched + (s.watched - t.watched); }
  }
}
