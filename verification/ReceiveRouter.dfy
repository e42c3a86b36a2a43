/**
 From the reorder buffer to the decoder: the transport thread releases frames into a FIFO
 per stream, the playout thread takes the due ones under a lock and hands them out after
 dropping it, and the main thread opens and closes streams. One step is one critical
 section or one callback; the steps of the three threads interleave freely.
 */
module ReceiveRouter {
  import opened Basics
  import opened FrameReorder

  const MAX_PENDING_FRAMES: nat := 64

  type StreamId = nat

  datatype Pending = Pending(at: int, frame: Frame)

  /** A frame on its way to `deliver_`, with its stream. */
  datatype Item = Item(stream: StreamId, frame: Frame)

  // ---- the playout pass ----

  /** How many frames of a queue a pass takes: the due ones, and the oldest of an overlong queue. */
  function DueCount(q: seq<Pending>, now: int): (n: nat)
    ensures n <= |q|
    ensures |q| - n <= MAX_PENDING_FRAMES
    ensures n < |q| ==> q[n].at > now
    ensures forall i :: 0 <= i < n ==> q[i].at <= now || |q| - i > MAX_PENDING_FRAMES
    decreases |q|
  {
    if q != [] && (q[0].at <= now || |q| > MAX_PENDING_FRAMES) then
      var n := DueCount(q[1..], now);
      assert forall i :: 0 <= i < |q[1..]| ==> q[1..][i] == q[i + 1];
      1 + n
    else 0
  }

  function Frames(q: seq<Pending>): (r: seq<Frame>)
    decreases |q|
  {
    if q == [] then [] else Frames(q[..|q| - 1]) + [q[|q| - 1].frame]
  }

  lemma {:induction false} FramesJoin(a: seq<Pending>, b: seq<Pending>)
    ensures Frames(a + b) == Frames(a) + Frames(b)
    decreases |b|
  {
    if b == [] {
      assert a + b == a;
    } else {
      assert (a + b)[..|a + b| - 1] == a + b[..|b| - 1];
      FramesJoin(a, b[..|b| - 1]);
    }
  }

  /** The frames of one stream, in order. */
  function Of(items: seq<Item>, id: StreamId): seq<Frame>
    decreases |items|
  {
    if items == [] then []
    else Of(items[..|items| - 1], id) + if items[|items| - 1].stream == id then [items[|items| - 1].frame] else []
  }

  function Queue(pending: map<StreamId, seq<Pending>>, id: StreamId): seq<Pending> {
    if id in pending then pending[id] else []
  }

  lemma {:induction false} OfSnoc(items: seq<Item>, x: Item, id: StreamId)
    ensures Of(items + [x], id) == Of(items, id) + if x.stream == id then [x.frame] else []
  {
    assert (items + [x])[..|items|] == items;
  }

  /** `more` is `due` with frames of stream `id` added at the end. */
  ghost predicate AddsTo(due: seq<Item>, more: seq<Item>, id: StreamId, fs: seq<Frame>) {
    forall other :: Of(more, other) == if other == id then Of(due, id) + fs else Of(due, other)
  }

  lemma {:induction false} AddsOne(due: seq<Item>, more: seq<Item>, id: StreamId, fs: seq<Frame>, f: Frame)
    requires AddsTo(due, more, id, fs)
    ensures AddsTo(due, more + [Item(id, f)], id, fs + [f])
  {
    forall other
      ensures Of(more + [Item(id, f)], other) == if other == id then Of(due, id) + (fs + [f]) else Of(due, other)
    {
      OfSnoc(more, Item(id, f), other);
    }
  }

  lemma {:induction false} TakesOneMore(id: StreamId, q: seq<Pending>, n: nat, due: seq<Item>, due': seq<Item>)
    requires n < |q| && AddsTo(due, due', id, Frames(q[..n]))
    ensures AddsTo(due, due' + [Item(id, q[n].frame)], id, Frames(q[..n + 1]))
  {
    assert q[..n + 1][..n] == q[..n];
    assert Frames(q[..n + 1]) == Frames(q[..n]) + [q[n].frame];
    AddsOne(due, due', id, Frames(q[..n]), q[n].frame);
  }

  /** Moves the due head of one queue over: the inner loop of the playout pass. */
  method TakeDue(id: StreamId, q: seq<Pending>, now: int, due: seq<Item>) returns (due': seq<Item>, rest: seq<Pending>)
    ensures rest == q[DueCount(q, now)..]
    ensures AddsTo(due, due', id, Frames(q[..DueCount(q, now)]))
  {
    due', rest := due, q;
    ghost var n: nat := 0;
    assert q[..0] == [] && q[0..] == q;
    while rest != [] && (rest[0].at <= now || |rest| > MAX_PENDING_FRAMES)
      invariant n <= |q| && rest == q[n..]
      invariant AddsTo(due, due', id, Frames(q[..n]))
      invariant DueCount(q, now) == n + DueCount(rest, now)
      decreases |rest|
    {
      TakesOneMore(id, q, n, due, due');
      due' := due' + [Item(id, rest[0].frame)];
      assert rest[1..] == q[n + 1..];
      rest := rest[1..];
      n := n + 1;
    }
  }

  /** `taken` and `left` are what a pass makes of a queue. */
  ghost predicate Split(q: seq<Pending>, taken: seq<Frame>, left: seq<Pending>, now: int) {
    var n := DueCount(q, now);
    taken == Frames(q[..n]) && left == q[n..]
  }

  lemma {:induction false} SplitFacts(q: seq<Pending>, taken: seq<Frame>, left: seq<Pending>, now: int)
    requires Split(q, taken, left, now)
    ensures Frames(q) == taken + Frames(left)
    ensures |left| <= MAX_PENDING_FRAMES && (left != [] ==> left[0].at > now)
  {
    var n := DueCount(q, now);
    assert q == q[..n] + q[n..];
    FramesJoin(q[..n], q[n..]);
  }

  /** One stream in a pass that has done every stream outside `todo`. */
  ghost predicate StreamDone(q: Option<seq<Pending>>, todo: bool, taken: seq<Frame>, left: Option<seq<Pending>>, now: int) {
    match q
    case None => left.None? && taken == []
    case Some(p) => left.Some? && if todo then taken == [] && left.value == p else Split(p, taken, left.value, now)
  }

  function Get(pending: map<StreamId, seq<Pending>>, id: StreamId): Option<seq<Pending>> {
    if id in pending then Some(pending[id]) else None
  }

  ghost predicate PassDone(pending: map<StreamId, seq<Pending>>, due: seq<Item>, left: map<StreamId, seq<Pending>>,
                           todo: set<StreamId>, now: int) {
    forall id :: StreamDone(Get(pending, id), id in todo, Of(due, id), Get(left, id), now)
  }

  /** One locked pass over every queue, in whatever order the map iterates. */
  method PlayoutPass(pending: map<StreamId, seq<Pending>>, now: int)
    returns (due: seq<Item>, left: map<StreamId, seq<Pending>>)
    ensures PassDone(pending, due, left, {}, now)
  {
    due, left := [], pending;
    var todo := pending.Keys;
    while todo != {}
      invariant todo <= pending.Keys && PassDone(pending, due, left, todo, now)
      decreases todo
    {
      var id :| id in todo;
      ghost var before := due;
      var rest;
      due, rest := TakeDue(id, pending[id], now, due);
      PassStep(pending, before, due, left, todo, now, id);
      left := left[id := rest];
      todo := todo - {id};
    }
  }

  lemma {:induction false} PassStep(pending: map<StreamId, seq<Pending>>, due: seq<Item>, due': seq<Item>,
                 left: map<StreamId, seq<Pending>>, todo: set<StreamId>, now: int, id: StreamId)
    requires PassDone(pending, due, left, todo, now) && id in todo && id in pending
    requires AddsTo(due, due', id, Frames(pending[id][..DueCount(pending[id], now)]))
    ensures PassDone(pending, due', left[id := pending[id][DueCount(pending[id], now)..]], todo - {id}, now)
  {
    var rest := pending[id][DueCount(pending[id], now)..];
    var left' := left[id := rest];
    assert StreamDone(Get(pending, id), true, Of(due, id), Get(left, id), now);
    forall other
      ensures StreamDone(Get(pending, other), other in todo - {id}, Of(due', other), Get(left', other), now)
    {
      if other == id {
        assert Of(due', id) == [] + Frames(pending[id][..DueCount(pending[id], now)]);
      } else {
        assert StreamDone(Get(pending, other), other in todo, Of(due, other), Get(left, other), now);
        assert Get(left', other) == Get(left, other) && Of(due', other) == Of(due, other);
      }
    }
  }
}
