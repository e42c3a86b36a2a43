/**
 When a stream may be opened again. Opening replaces the reorder buffer but recalls nothing
 that is already queued for playout or taken by the playout thread, so what the decoder
 hears afterwards is decodable in every run exactly when nothing was. Closing the stream
 first and waiting for the playout thread gets there.
 */
module RouterReopening {
  import opened Basics
  import opened FrameReorder
  import opened ReorderSafety
  import opened ReceiveRouter
  import opened RouterRuns

  ghost function RunFrom(c: Config, r: Router, more: seq<Action>): Router
    decreases |more|
  {
    if more == [] then r else RunFrom(c, Next(c, r, more[0]), more[1..])
  }

  lemma {:induction false} RunJoins(c: Config, acts: seq<Action>, more: seq<Action>)
    ensures RouterRuns.Run(c, acts + more) == RunFrom(c, RouterRuns.Run(c, acts), more)
    decreases |more|
  {
    if more == [] {
      assert acts + more == acts;
    } else {
      RunSnoc(c, acts, more[0]);
      RunJoins(c, acts + [more[0]], more[1..]);
      assert acts + [more[0]] + more[1..] == acts + more;
    }
  }

  lemma {:induction false} RunFromJoins(c: Config, r: Router, a: seq<Action>, b: seq<Action>)
    ensures RunFrom(c, r, a + b) == RunFrom(c, RunFrom(c, r, a), b)
    decreases |a|
  {
    if a == [] {
      assert a + b == b;
    } else {
      assert (a + b)[1..] == a[1..] + b;
      RunFromJoins(c, Next(c, r, a[0]), a[1..], b);
    }
  }

  /** The steps neither close nor open the stream. */
  ghost predicate Untouched(more: seq<Action>, id: StreamId) {
    forall a :: a in more ==> !(a.Open? && a.id == id) && !(a.CloseBuffer? && a.id == id)
  }

  /** What the decoder heard is a prefix of what this stream's buffer released since it was opened. */
  ghost predicate HeardOnlyItsOwn(r: Router, id: StreamId) {
    id in r.lines && r.lines[id].heard <= Delivered(r.lines[id].trace)
  }

  ghost predicate DecodesSafely(r: Router, id: StreamId) {
    id in r.lines && DecodeSafe(r.lines[id].heard)
  }

  /** Nothing of the stream is queued for playout or already taken by the playout thread. */
  ghost predicate NothingOnItsWay(r: Router, id: StreamId) {
    Of(r.due, id) == [] && Queue(r.pending, id) == []
  }

  // ---- nothing left over: safe ----

  lemma {:induction false} LeftoverStays(c: Config, r: Router, more: seq<Action>, id: StreamId)
    requires id in r.lines && Untouched(more, id)
    ensures var u := RunFrom(c, r, more); id in u.lines && u.lines[id].leftover == r.lines[id].leftover
    decreases |more|
  {
    if more == [] {
    } else {
      assert more[0] in more;
      LeftoverStays(c, Next(c, r, more[0]), more[1..], id);
    }
  }

  // ---- something left over: there is a run that decodes wrongly ----

  /** The playout thread hands out everything it has taken. */
  lemma {:induction false} HandOutAll(c: Config, r: Router, id: StreamId) returns (more: seq<Action>)
    requires id in r.lines
    ensures Untouched(more, id)
    ensures var u := RunFrom(c, r, more);
      && u.due == [] && u.pending == r.pending && u.outbox == r.outbox
      && id in u.lines && u.lines[id].trace == r.lines[id].trace
    decreases |r.due|
  {
    if r.due == [] {
      more := [];
    } else {
      var u := Next(c, r, HandOut);
      var rest := HandOutAll(c, u, id);
      more := [HandOut] + rest;
      assert more[1..] == rest;
    }
  }

  lemma {:induction false} AddsAll(due: seq<Item>, id: StreamId, fs: seq<Frame>) returns (more: seq<Item>)
    ensures AddsTo(due, more, id, fs)
    decreases |fs|
  {
    if fs == [] {
      more := due;
    } else {
      var n := |fs| - 1;
      more := AddsAll(due, id, fs[..n]);
      AddsOne(due, more, id, fs[..n], fs[n]);
      more := more + [Item(id, fs[n])];
      assert fs[..n] + [fs[n]] == fs;
    }
  }

  /** A pass can always be made. */
  lemma {:induction false} PassExists(pending: map<StreamId, seq<Pending>>, now: int)
    returns (due: seq<Item>, left: map<StreamId, seq<Pending>>)
    ensures PassDone(pending, due, left, {}, now)
  {
    due, left := [], pending;
    var todo := pending.Keys;
    while todo != {}
      invariant todo <= pending.Keys && PassDone(pending, due, left, todo, now)
      decreases todo
    {
      var id :| id in todo;
      var n := DueCount(pending[id], now);
      var more := AddsAll(due, id, Frames(pending[id][..n]));
      PassStep(pending, due, more, left, todo, now, id);
      due, left, todo := more, left[id := pending[id][n..]], todo - {id};
    }
  }

  function LatestAt(q: seq<Pending>): (t: int)
    ensures forall i :: 0 <= i < |q| ==> q[i].at <= t
    decreases |q|
  {
    if q == [] then 0
    else
      assert forall i :: 0 < i < |q| ==> q[i] == q[1..][i - 1];
      Max(q[0].at, LatestAt(q[1..]))
  }

  /** A pass made when everything queued is due leaves nothing queued. */
  lemma {:induction false} PassTakesAll(pending: map<StreamId, seq<Pending>>, due: seq<Item>,
                                        left: map<StreamId, seq<Pending>>, id: StreamId)
    requires PassDone(pending, due, left, {}, LatestAt(Queue(pending, id)))
    ensures Queue(left, id) == []
  {
    var now := LatestAt(Queue(pending, id));
    assert StreamDone(Get(pending, id), id in {}, Of(due, id), Get(left, id), now);
    if id in pending {
      assert DueCount(pending[id], now) == |pending[id]|;
    }
  }

  /** The playout thread can always catch up with a stream. */
  lemma {:induction false} CatchUp(c: Config, r: Router, id: StreamId) returns (more: seq<Action>)
    requires id in r.lines
    ensures Untouched(more, id)
    ensures var u := RunFrom(c, r, more);
      && NothingOnItsWay(u, id) && u.outbox == r.outbox
      && id in u.lines && u.lines[id].trace == r.lines[id].trace
  {
    var first := HandOutAll(c, r, id);
    var u := RunFrom(c, r, first);
    var now := LatestAt(Queue(u.pending, id));
    var due, left := PassExists(u.pending, now);
    PassTakesAll(u.pending, due, left, id);
    var pass := Pass(now, due, left);
    var v := Next(c, u, pass);
    var last := HandOutAll(c, v, id);
    assert ([pass] + last)[1..] == last;
    RunFromJoins(c, r, first, [pass] + last);
    more := first + ([pass] + last);
  }

  lemma {:induction false} KeyStarts(c: Config, rtt: nat, f: Frame, now: int)
    requires f.keyframe
    ensures Apply(c, Fresh(rtt), Arrived(f, now)).out == [Deliver(f)]
  {
  }

  /** Just opened, with frames of its previous life on their way. */
  ghost predicate OpenedOver(r: Router, id: StreamId, rtt: nat) {
    id in r.lines && r.outbox == [] && r.lines[id].leftover != [] &&
    r.lines[id] == Line(Fresh(rtt), [], r.lines[id].leftover, [])
  }

  /** A keyframe numbered like the last frame left over is released and queued. */
  lemma {:induction false} KeyIsQueued(c: Config, r: Router, id: StreamId, rtt: nat, key: Frame)
    requires OpenedOver(r, id, rtt) && key.keyframe
    ensures var u := RunFrom(c, r, [Feed(id, Arrived(key, 0)), PushPending(0)]);
      && id in u.lines && u.outbox == [] && u.lines[id].trace == [Deliver(key)]
  {
    KeyStarts(c, rtt, key, 0);
    ReleasedOne(id, key);
    var u := Next(c, r, Feed(id, Arrived(key, 0)));
    assert u.outbox == [Item(id, key)] && u.lines[id].trace == [] + [Deliver(key)];
    var v := Next(c, u, PushPending(0));
    assert v.outbox == [] && v.lines == u.lines;
    var two := [Feed(id, Arrived(key, 0)), PushPending(0)];
    assert two[1..] == [PushPending(0)] && two[1..][1..] == [];
    assert RunFrom(c, v, []) == v;
    assert RunFrom(c, u, [PushPending(0)]) == v;
  }

  /** The decoder then hears a frame that is not newer than the one before it. */
  lemma {:induction false} RepeatIsUnsafe(left: seq<Frame>, key: Frame)
    requires left != [] && key.seqNo == left[|left| - 1].seqNo
    ensures !DecodeSafe(left + [key])
  {
    assert !DecodableAt(left + [key], |left|);
  }

  lemma {:induction false} LeftoverBreaksDecoding(c: Config, acts: seq<Action>, id: StreamId, rtt: nat)
    returns (more: seq<Action>)
    requires OpenedOver(RouterRuns.Run(c, acts), id, rtt)
    ensures Untouched(more, id)
    ensures !DecodesSafely(RouterRuns.Run(c, acts + more), id)
  {
    var r := RouterRuns.Run(c, acts);
    var left := r.lines[id].leftover;
    var key := Frame(left[|left| - 1].seqNo, true, []);
    var first := [Feed(id, Arrived(key, 0)), PushPending(0)];
    KeyIsQueued(c, r, id, rtt, key);
    var rest := CatchUp(c, RunFrom(c, r, first), id);
    more := first + rest;
    RunFromJoins(c, r, first, rest);
    RunJoins(c, acts, more);
    LeftoverStays(c, r, more, id);
    RouterRuns.RunKeeps(c, acts + more);
    var u := RouterRuns.Run(c, acts + more);
    assert FlowsAt(u, id);
    AllIsHeard(u.lines[id], key);
    RepeatIsUnsafe(left, key);
  }

  lemma {:induction false} AllIsHeard(l: Line, f: Frame)
    requires Flows(l, [], [], []) && l.trace == [Deliver(f)]
    ensures l.heard == l.leftover + [f]
  {
    assert l.trace[..0] == [];
    assert Delivered(l.trace) == [] + [f];
    assert l.heard + [] + [] + [] == l.heard;
  }

  lemma {:induction false} OpenLeaves(c: Config, r: Router, id: StreamId, rtt: nat)
    requires r.outbox == [] && r.closing.None?
    ensures var u := Next(c, r, Open(id, rtt));
      && u.outbox == [] && id in u.lines && u.lines[id] == Line(Fresh(rtt), [], u.lines[id].leftover, [])
      && (u.lines[id].leftover == [] <==> NothingOnItsWay(r, id))
  {
    if Queue(r.pending, id) != [] { assert Frames(Queue(r.pending, id)) != []; }
  }

  lemma {:induction false} OpenedCleanIsSafe(c: Config, acts: seq<Action>, more: seq<Action>, id: StreamId)
    requires var r := RouterRuns.Run(c, acts); id in r.lines && r.lines[id].leftover == []
    requires Untouched(more, id)
    ensures var u := RouterRuns.Run(c, acts + more); DecodesSafely(u, id) && HeardOnlyItsOwn(u, id)
  {
    RunJoins(c, acts, more);
    LeftoverStays(c, RouterRuns.Run(c, acts), more, id);
    DecoderIsSafe(c, acts + more, id);
  }

  /** Hearing only one's own is decodable, so it fails where decoding fails. */
  lemma {:induction false} OwnIsDecodable(c: Config, acts: seq<Action>, id: StreamId)
    ensures var r := RouterRuns.Run(c, acts); HeardOnlyItsOwn(r, id) ==> DecodesSafely(r, id)
  {
    RouterRuns.RunKeeps(c, acts);
    var r := RouterRuns.Run(c, acts);
    if HeardOnlyItsOwn(r, id) { GoodLineIsSafe(c, r, id); }
  }

  /**
   Exactly when opening a stream is safe. Whatever happens until it is closed or opened
   again, what the decoder hears is decodable in order, and is what the new buffer released,
   if and only if at the moment of opening nothing of the stream was on its way.
   */
  lemma {:induction false} OpeningIsSafeExactlyWhenNothingIsLeft(c: Config, acts: seq<Action>, id: StreamId, rtt: nat)
    requires RouterRuns.Run(c, acts).outbox == [] && RouterRuns.Run(c, acts).closing.None?
    ensures (forall more :: Untouched(more, id) ==> DecodesSafely(RouterRuns.Run(c, acts + [Open(id, rtt)] + more), id))
      <==> NothingOnItsWay(RouterRuns.Run(c, acts), id)
    ensures (forall more :: Untouched(more, id) ==> HeardOnlyItsOwn(RouterRuns.Run(c, acts + [Open(id, rtt)] + more), id))
      <==> NothingOnItsWay(RouterRuns.Run(c, acts), id)
  {
    var r := RouterRuns.Run(c, acts);
    var prior := acts + [Open(id, rtt)];
    RunSnoc(c, acts, Open(id, rtt));
    OpenLeaves(c, r, id, rtt);
    if NothingOnItsWay(r, id) {
      forall more | Untouched(more, id)
        ensures DecodesSafely(RouterRuns.Run(c, prior + more), id)
        ensures HeardOnlyItsOwn(RouterRuns.Run(c, prior + more), id)
      {
        OpenedCleanIsSafe(c, prior, more, id);
      }
    } else {
      var more := LeftoverBreaksDecoding(c, prior, id, rtt);
      OwnIsDecodable(c, prior + more, id);
    }
  }

  // ---- closing first ----

  /** The stream is closed: only what the playout thread has taken, or `close` has yet to erase, remains. */
  ghost predicate Closed(r: Router, id: StreamId) {
    id !in r.lines && Of(r.outbox, id) == [] && (r.closing == Some(id) || Queue(r.pending, id) == [])
  }

  /** Nothing of the stream is left anywhere. */
  ghost predicate Gone(r: Router, id: StreamId) {
    Closed(r, id) && r.closing != Some(id) && Of(r.due, id) == []
  }

  lemma {:induction false} PassOfNothing(pending: map<StreamId, seq<Pending>>, due: seq<Item>,
                                         left: map<StreamId, seq<Pending>>, now: int, id: StreamId)
    requires PassDone(pending, due, left, {}, now) && Queue(pending, id) == []
    ensures Of(due, id) == [] && Queue(left, id) == []
  {
    assert StreamDone(Get(pending, id), id in {}, Of(due, id), Get(left, id), now);
  }

  lemma {:induction false} ClosedStep(c: Config, r: Router, a: Action, id: StreamId)
    requires Closed(r, id) && !(a.Open? && a.id == id) && !(a.CloseBuffer? && a.id == id)
    ensures Closed(Next(c, r, a), id)
    ensures Gone(r, id) ==> Gone(Next(c, r, a), id)
  {
    match a
    case Feed(other, event) =>
      if r.outbox == [] && other in r.lines {
        ReleasedIsDelivered(other, Apply(c, r.lines[other].buffer, event).out, id);
      }
    case PushPending(_) => if r.outbox != [] { OfHead(r.outbox, id); }
    case Pass(now, taken, left) =>
      if PassDone(r.pending, taken, left, {}, now) && Queue(r.pending, id) == [] {
        PassOfNothing(r.pending, taken, left, now, id);
      }
    case HandOut => if r.due != [] { OfHead(r.due, id); }
    case _ =>
  }

  lemma {:induction false} StaysClosed(c: Config, r: Router, more: seq<Action>, id: StreamId)
    requires Closed(r, id) && Untouched(more, id)
    ensures Closed(RunFrom(c, r, more), id)
    ensures Gone(r, id) ==> Gone(RunFrom(c, r, more), id)
    decreases |more|
  {
    if more == [] {
    } else {
      assert more[0] in more;
      ClosedStep(c, r, more[0], id);
      StaysClosed(c, Next(c, r, more[0]), more[1..], id);
    }
  }

  /**
   The caller's side: once a stream is closed, whatever else happens, its queue is empty as
   soon as `close` has run to its end; and once the playout thread has then handed out what
   it had taken, nothing of the stream is left, so opening it again is safe.
   */
  lemma {:induction false} ClosingAndWaitingLeavesNothing(c: Config, acts: seq<Action>, closing: seq<Action>,
                                                          waiting: seq<Action>, id: StreamId)
    requires RouterRuns.Run(c, acts).outbox == [] && RouterRuns.Run(c, acts).closing.None?
    requires Untouched(closing, id) && Untouched(waiting, id)
    ensures var r := RouterRuns.Run(c, acts + [CloseBuffer(id)] + closing);
      r.closing != Some(id) ==>
        && Queue(r.pending, id) == []
        && (r.due == [] ==> NothingOnItsWay(RouterRuns.Run(c, acts + [CloseBuffer(id)] + closing + waiting), id))
  {
    var prior := acts + [CloseBuffer(id)];
    RunSnoc(c, acts, CloseBuffer(id));
    RunJoins(c, prior, closing);
    StaysClosed(c, RouterRuns.Run(c, prior), closing, id);
    RunJoins(c, prior + closing, waiting);
    StaysClosed(c, RouterRuns.Run(c, prior + closing), waiting, id);
  }
}
