/**
 What the decoder is handed, over every interleaving of the transport thread, the playout
 thread and the main thread: per stream it is a prefix of what was left over when the
 stream was opened followed by what its reorder buffer released since. With nothing left
 over, decode safety therefore holds at the decoder; with something left over it does not.
 */
module RouterRuns {
  import opened Basics
  import opened FrameReorder
  import opened ReorderSafety
  import opened ReceiveRouter

  /**
   An open stream. Since it was opened: `trace` is every callback of its buffer, `heard`
   every frame handed to the decoder. `leftover` is what was on its way at that moment.
   */
  datatype Line = Line(buffer: FrameReorder.State, trace: seq<Output>, leftover: seq<Frame>, heard: seq<Frame>)

  /** `outbox` is released by a buffer call still running; `due` is taken by the playout thread. */
  datatype Router = Router(
    lines: map<StreamId, Line>,
    outbox: seq<Item>,
    pending: map<StreamId, seq<Pending>>,
    due: seq<Item>,
    closing: Option<StreamId>)

  datatype Action =
    | Open(id: StreamId, rtt: nat)
    | CloseBuffer(id: StreamId)
    | ErasePending
    | Feed(id: StreamId, event: Event)
    | PushPending(at: int)
    | Pass(now: int, taken: seq<Item>, left: map<StreamId, seq<Pending>>)
    | HandOut

  function Idle(): Router {
    Router(map[], [], map[], [], None)
  }

  /** The deliveries of one buffer call, in order. */
  function Released(id: StreamId, out: seq<Output>): seq<Item>
    decreases |out|
  {
    if out == [] then []
    else
      var o := out[|out| - 1];
      Released(id, out[..|out| - 1]) + if o.Deliver? then [Item(id, o.frame)] else []
  }

  /** One step; a step whose lock is taken or that does not apply changes nothing. */
  ghost function Next(c: Config, r: Router, a: Action): Router {
    match a
    case Open(id, rtt) =>
      if r.outbox != [] || r.closing.Some? then r
      else r.(lines := r.lines[id := Line(Fresh(rtt), [], Of(r.due, id) + Frames(Queue(r.pending, id)), [])])
    case CloseBuffer(id) =>
      if r.outbox != [] || r.closing.Some? then r else r.(lines := r.lines - {id}, closing := Some(id))
    case ErasePending =>
      if r.closing.None? then r else r.(pending := r.pending - {r.closing.value}, closing := None)
    case Feed(id, event) =>
      if r.outbox != [] || id !in r.lines then r
      else
        var l := r.lines[id];
        var step := Apply(c, l.buffer, event);
        r.(lines := r.lines[id := l.(buffer := step.state, trace := l.trace + step.out)],
           outbox := Released(id, step.out))
    case PushPending(at) =>
      if r.outbox == [] then r
      else
        var x := r.outbox[0];
        r.(outbox := r.outbox[1..],
           pending := r.pending[x.stream := Queue(r.pending, x.stream) + [Pending(at, x.frame)]])
    case Pass(now, taken, left) =>
      if r.due == [] && PassDone(r.pending, taken, left, {}, now) then r.(due := taken, pending := left) else r
    case HandOut =>
      if r.due == [] then r
      else
        var x := r.due[0];
        r.(due := r.due[1..],
           lines := if x.stream in r.lines
                    then r.lines[x.stream := r.lines[x.stream].(heard := r.lines[x.stream].heard + [x.frame])]
                    else r.lines)
  }

  ghost function Run(c: Config, acts: seq<Action>): Router
    decreases |acts|
  {
    if acts == [] then Idle() else Next(c, Run(c, acts[..|acts| - 1]), acts[|acts| - 1])
  }

  // ---- the invariant ----

  /** Everything since the stream was opened is accounted for, in order. */
  ghost predicate Flows(l: Line, due: seq<Frame>, queued: seq<Frame>, outbox: seq<Frame>) {
    l.leftover + Delivered(l.trace) == l.heard + due + queued + outbox
  }

  ghost predicate FlowsAt(r: Router, id: StreamId) {
    id in r.lines ==> Flows(r.lines[id], Of(r.due, id), Frames(Queue(r.pending, id)), Of(r.outbox, id))
  }

  ghost predicate BufferGood(c: Config, l: Line) {
    Inv(c, l.buffer) && Linked(l.buffer, l.trace)
  }

  /** The buffer of every open stream is in a reachable state. */
  ghost predicate BuffersGood(c: Config, lines: map<StreamId, Line>) {
    forall id :: id in lines ==> BufferGood(c, lines[id])
  }

  ghost predicate Good(c: Config, r: Router) {
    && (forall id :: FlowsAt(r, id))
    && BuffersGood(c, r.lines)
    && ClosingIsClosed(r)
  }

  // ---- moving frames along ----

  lemma {:induction false} OfJoin(a: seq<Item>, b: seq<Item>, id: StreamId)
    ensures Of(a + b, id) == Of(a, id) + Of(b, id)
    decreases |b|
  {
    if b == [] {
      assert a + b == a;
    } else {
      var n := |b| - 1;
      assert a + b == (a + b[..n]) + [b[n]];
      OfSnoc(a + b[..n], b[n], id);
      OfJoin(a, b[..n], id);
    }
  }

  lemma {:induction false} OfHead(items: seq<Item>, id: StreamId)
    requires items != []
    ensures Of(items, id) == (if items[0].stream == id then [items[0].frame] else []) + Of(items[1..], id)
  {
    var x := items[0];
    assert items == [x] + items[1..];
    OfJoin([x], items[1..], id);
    OfSnoc([], x, id);
    assert [] + [x] == [x];
  }

  lemma {:induction false} ReleasedIsDelivered(id: StreamId, out: seq<Output>, other: StreamId)
    ensures Of(Released(id, out), other) == if other == id then Delivered(out) else []
    decreases |out|
  {
    if out == [] {
    } else {
      var o := out[|out| - 1];
      ReleasedIsDelivered(id, out[..|out| - 1], other);
      if o.Deliver? {
        OfSnoc(Released(id, out[..|out| - 1]), Item(id, o.frame), other);
      } else {
        assert Released(id, out) == Released(id, out[..|out| - 1]);
        assert Delivered(out) == Delivered(out[..|out| - 1]);
      }
    }
  }

  lemma {:induction false} DeliveredJoin(a: seq<Output>, b: seq<Output>)
    ensures Delivered(a + b) == Delivered(a) + Delivered(b)
    decreases |b|
  {
    if b == [] {
      assert a + b == a;
    } else {
      assert (a + b)[..|a + b| - 1] == a + b[..|b| - 1];
      DeliveredJoin(a, b[..|b| - 1]);
    }
  }

  lemma {:induction false} FramesSnoc(q: seq<Pending>, p: Pending)
    ensures Frames(q + [p]) == Frames(q) + [p.frame]
  {
    assert (q + [p])[..|q|] == q;
  }

  lemma {:induction false} ShiftOne(heard: seq<Frame>, due: seq<Frame>, queued: seq<Frame>, f: Frame, outbox: seq<Frame>)
    ensures heard + due + queued + ([f] + outbox) == heard + due + (queued + [f]) + outbox
    ensures heard + ([f] + due) + queued + outbox == (heard + [f]) + due + queued + outbox
  {
  }

  // ---- each step, one stream at a time ----

  lemma {:induction false} FeedFlows(c: Config, r: Router, id: StreamId, event: Event, other: StreamId)
    requires FlowsAt(r, other) && r.outbox == [] && id in r.lines
    ensures FlowsAt(Next(c, r, Feed(id, event)), other)
  {
    var l := r.lines[id];
    var out := Apply(c, l.buffer, event).out;
    var r' := Next(c, r, Feed(id, event));
    ReleasedIsDelivered(id, out, other);
    if other == id {
      DeliveredJoin(l.trace, out);
      assert r'.lines[id].trace == l.trace + out && Of(r'.outbox, id) == Delivered(out);
      AppendFlow(l, Of(r.due, id), Frames(Queue(r.pending, id)), r'.lines[id], Delivered(out));
    }
  }

  lemma {:induction false} AppendFlow(l: Line, due: seq<Frame>, queued: seq<Frame>, l': Line, more: seq<Frame>)
    requires Flows(l, due, queued, []) && l'.leftover == l.leftover && l'.heard == l.heard
    requires Delivered(l'.trace) == Delivered(l.trace) + more
    ensures Flows(l', due, queued, more)
  {
    assert l.leftover + (Delivered(l.trace) + more) == l.leftover + Delivered(l.trace) + more;
    assert l.heard + due + queued + [] == l.heard + due + queued;
  }

  lemma {:induction false} PushFlows(c: Config, r: Router, at: int, id: StreamId)
    requires FlowsAt(r, id) && r.outbox != []
    ensures FlowsAt(Next(c, r, PushPending(at)), id)
  {
    var x := r.outbox[0];
    var r' := Next(c, r, PushPending(at));
    OfHead(r.outbox, id);
    if x.stream == id && id in r.lines {
      FramesSnoc(Queue(r.pending, id), Pending(at, x.frame));
      ShiftOne(r.lines[id].heard, Of(r.due, id), Frames(Queue(r.pending, id)), x.frame, Of(r'.outbox, id));
    } else if id in r.lines {
      assert Queue(r'.pending, id) == Queue(r.pending, id);
      assert [] + Of(r'.outbox, id) == Of(r'.outbox, id);
    }
  }

  lemma {:induction false} PassFlows(r: Router, now: int, taken: seq<Item>, left: map<StreamId, seq<Pending>>, id: StreamId)
    requires FlowsAt(r, id) && r.due == [] && PassDone(r.pending, taken, left, {}, now)
    ensures FlowsAt(r.(due := taken, pending := left), id)
  {
    if id in r.lines {
      PassSplits(r.pending, taken, left, now, id);
      PassFlow(r.lines[id], Frames(Queue(r.pending, id)), Of(taken, id), Frames(Queue(left, id)), Of(r.outbox, id));
      assert Of(r.due, id) == [];
    }
  }

  lemma {:induction false} PassFlow(l: Line, queued: seq<Frame>, taken: seq<Frame>, left: seq<Frame>, outbox: seq<Frame>)
    requires Flows(l, [], queued, outbox) && queued == taken + left
    ensures Flows(l, taken, left, outbox)
  {
    assert l.heard + [] + (taken + left) + outbox == l.heard + taken + left + outbox;
  }

  lemma {:induction false} PassSplits(pending: map<StreamId, seq<Pending>>, taken: seq<Item>,
                                      left: map<StreamId, seq<Pending>>, now: int, id: StreamId)
    requires PassDone(pending, taken, left, {}, now)
    ensures Frames(Queue(pending, id)) == Of(taken, id) + Frames(Queue(left, id))
    ensures |Queue(left, id)| <= MAX_PENDING_FRAMES
  {
    assert StreamDone(Get(pending, id), false, Of(taken, id), Get(left, id), now);
    if id in pending { SplitFacts(pending[id], Of(taken, id), left[id], now); }
  }

  lemma {:induction false} HandOutFlows(c: Config, r: Router, id: StreamId)
    requires FlowsAt(r, id) && r.due != []
    ensures FlowsAt(Next(c, r, HandOut), id)
  {
    var x := r.due[0];
    var r' := Next(c, r, HandOut);
    OfHead(r.due, id);
    if x.stream == id && id in r.lines {
      ShiftOne(r.lines[id].heard, Of(r'.due, id), Frames(Queue(r.pending, id)), x.frame, Of(r.outbox, id));
    } else if id in r.lines {
      assert r'.lines[id] == r.lines[id];
      assert [] + Of(r'.due, id) == Of(r'.due, id);
    }
  }

  lemma {:induction false} OpenFlows(c: Config, r: Router, id: StreamId, rtt: nat, other: StreamId)
    requires FlowsAt(r, other) && r.outbox == []
    ensures FlowsAt(Next(c, r, Open(id, rtt)), other)
  {
    var d, q := Of(r.due, id), Frames(Queue(r.pending, id));
    assert (d + q) + [] == [] + d + q + [];
  }

  lemma {:induction false} NextFlows(c: Config, r: Router, a: Action, id: StreamId)
    requires FlowsAt(r, id) && ClosingIsClosed(r)
    ensures FlowsAt(Next(c, r, a), id)
  {
    match a
    case Open(other, rtt) => if r.outbox == [] { OpenFlows(c, r, other, rtt, id); }
    case CloseBuffer(_) =>
    case ErasePending =>
      assert id in r.lines ==> Queue(Next(c, r, a).pending, id) == Queue(r.pending, id);
    case Feed(other, event) => if r.outbox == [] && other in r.lines { FeedFlows(c, r, other, event, id); }
    case PushPending(at) => if r.outbox != [] { PushFlows(c, r, at, id); }
    case Pass(now, taken, left) =>
      if r.due == [] && PassDone(r.pending, taken, left, {}, now) { PassFlows(r, now, taken, left, id); }
    case HandOut => if r.due != [] { HandOutFlows(c, r, id); }
  }

  lemma {:induction false} FeedBuffer(c: Config, l: Line, event: Event)
    requires BufferGood(c, l)
    ensures var step := Apply(c, l.buffer, event);
      BufferGood(c, l.(buffer := step.state, trace := l.trace + step.out))
  {
    ApplyKeeps(c, l.buffer, event, l.trace);
  }

  lemma {:induction false} HeardElsewhere(c: Config, l: Line, heard: seq<Frame>)
    requires BufferGood(c, l)
    ensures BufferGood(c, l.(heard := heard))
  {
  }

  lemma {:induction false} LineReplaced(c: Config, lines: map<StreamId, Line>, id: StreamId, l: Line)
    requires BuffersGood(c, lines) && BufferGood(c, l)
    ensures BuffersGood(c, lines[id := l])
  {
  }

  lemma {:induction false} FeedBuffers(c: Config, r: Router, id: StreamId, event: Event)
    requires BuffersGood(c, r.lines) && id in r.lines && r.outbox == []
    ensures BuffersGood(c, Next(c, r, Feed(id, event)).lines)
  {
    var l := r.lines[id];
    var step := Apply(c, l.buffer, event);
    FeedBuffer(c, l, event);
    LineReplaced(c, r.lines, id, l.(buffer := step.state, trace := l.trace + step.out));
  }

  lemma {:induction false} OpenBuffers(c: Config, r: Router, id: StreamId, rtt: nat)
    requires BuffersGood(c, r.lines) && r.outbox == [] && r.closing.None?
    ensures BuffersGood(c, Next(c, r, Open(id, rtt)).lines)
  {
    FreshIsGood(c, rtt);
    LineReplaced(c, r.lines, id, Line(Fresh(rtt), [], Of(r.due, id) + Frames(Queue(r.pending, id)), []));
  }

  lemma {:induction false} HandOutBuffers(c: Config, r: Router)
    requires BuffersGood(c, r.lines) && r.due != [] && r.due[0].stream in r.lines
    ensures BuffersGood(c, Next(c, r, HandOut).lines)
  {
    var l := r.lines[r.due[0].stream];
    HeardElsewhere(c, l, l.heard + [r.due[0].frame]);
    LineReplaced(c, r.lines, r.due[0].stream, l.(heard := l.heard + [r.due[0].frame]));
  }

  lemma {:induction false} LineRemoved(c: Config, lines: map<StreamId, Line>, id: StreamId)
    requires BuffersGood(c, lines)
    ensures BuffersGood(c, lines - {id})
  {
    forall other | other in lines - {id}
      ensures BufferGood(c, (lines - {id})[other])
    {
      assert BufferGood(c, lines[other]);
    }
  }

  lemma {:induction false} NextBuffers(c: Config, r: Router, a: Action)
    requires BuffersGood(c, r.lines)
    ensures BuffersGood(c, Next(c, r, a).lines)
  {
    match a
    case Feed(id, event) => if id in r.lines && r.outbox == [] { FeedBuffers(c, r, id, event); }
    case Open(id, rtt) => if r.outbox == [] && r.closing.None? { OpenBuffers(c, r, id, rtt); }
    case HandOut => if r.due != [] && r.due[0].stream in r.lines { HandOutBuffers(c, r); }
    case CloseBuffer(id) => LineRemoved(c, r.lines, id);
    case _ => assert Next(c, r, a).lines == r.lines;
  }

  lemma {:induction false} FreshIsGood(c: Config, rtt: nat)
    ensures forall left: seq<Frame> :: BufferGood(c, Line(Fresh(rtt), [], left, []))
  {
  }

  ghost predicate ClosingIsClosed(r: Router) {
    r.closing.Some? ==> r.closing.value !in r.lines
  }

  lemma {:induction false} NextClosing(c: Config, r: Router, a: Action)
    requires ClosingIsClosed(r)
    ensures ClosingIsClosed(Next(c, r, a))
  {
  }

  lemma {:induction false} NextKeeps(c: Config, r: Router, a: Action)
    requires Good(c, r)
    ensures Good(c, Next(c, r, a))
  {
    NextBuffers(c, r, a);
    NextClosing(c, r, a);
    forall id
      ensures FlowsAt(Next(c, r, a), id)
    {
      assert FlowsAt(r, id);
      NextFlows(c, r, a, id);
    }
  }

  lemma {:induction false} RunKeeps(c: Config, acts: seq<Action>)
    ensures Good(c, Run(c, acts))
    decreases |acts|
  {
    if acts == [] {
    } else {
      RunKeeps(c, acts[..|acts| - 1]);
      NextKeeps(c, Run(c, acts[..|acts| - 1]), acts[|acts| - 1]);
    }
  }

  // ---- what the decoder sees ----

  lemma {:induction false} PrefixIsSafe(d: seq<Frame>, p: seq<Frame>)
    requires DecodeSafe(d) && p <= d
    ensures DecodeSafe(p)
  {
    forall i | 0 <= i < |p|
      ensures DecodableAt(p, i)
    {
      assert DecodableAt(d, i);
    }
  }

  lemma {:induction false} FlowIsAPrefix(r: Router, id: StreamId)
    requires id in r.lines && FlowsAt(r, id)
    ensures r.lines[id].heard <= r.lines[id].leftover + Delivered(r.lines[id].trace)
  {
  }

  /** What the decoder heard since the stream was opened is a prefix of what was left over and released. */
  lemma {:induction false} HeardIsAPrefix(c: Config, acts: seq<Action>, id: StreamId)
    ensures var r := Run(c, acts);
      id in r.lines ==> r.lines[id].heard <= r.lines[id].leftover + Delivered(r.lines[id].trace)
  {
    RunKeeps(c, acts);
    var r := Run(c, acts);
    assert FlowsAt(r, id);
    if id in r.lines { FlowIsAPrefix(r, id); }
  }

  lemma {:induction false} GoodLineIsSafe(c: Config, r: Router, id: StreamId)
    requires id in r.lines && BufferGood(c, r.lines[id]) && r.lines[id].heard <= Delivered(r.lines[id].trace)
    ensures DecodeSafe(r.lines[id].heard)
  {
    PrefixIsSafe(Delivered(r.lines[id].trace), r.lines[id].heard);
  }

  ghost predicate HeardSafely(r: Router, id: StreamId) {
    id in r.lines && r.lines[id].leftover == [] ==>
      r.lines[id].heard <= Delivered(r.lines[id].trace) && DecodeSafe(r.lines[id].heard)
  }

  lemma {:induction false} GoodIsSafe(c: Config, r: Router, id: StreamId)
    requires Good(c, r)
    ensures HeardSafely(r, id)
  {
    if id in r.lines && r.lines[id].leftover == [] {
      assert FlowsAt(r, id);
      FlowIsAPrefix(r, id);
      assert [] + Delivered(r.lines[id].trace) == Delivered(r.lines[id].trace);
      GoodLineIsSafe(c, r, id);
    }
  }

  /**
   End to end: in every interleaving, a stream opened with nothing left over hands its
   decoder a prefix of what the reorder buffer released, each frame once, decodable in order.
   */
  lemma {:induction false} DecoderIsSafe(c: Config, acts: seq<Action>, id: StreamId)
    ensures HeardSafely(Run(c, acts), id)
  {
    RunKeeps(c, acts);
    GoodIsSafe(c, Run(c, acts), id);
  }

  /** The condition is exact: anything left over is what the decoder hears first. */
  lemma {:induction false} LeftoverIsHeardFirst(c: Config, acts: seq<Action>, id: StreamId)
    ensures var r := Run(c, acts);
      id in r.lines && r.lines[id].leftover != [] && r.lines[id].heard != [] ==>
        r.lines[id].heard[0] == r.lines[id].leftover[0]
  {
    HeardIsAPrefix(c, acts, id);
  }

  /** Every pass leaves at most MAX_PENDING_FRAMES frames queued, and takes each due frame in order. */
  lemma {:induction false} PassBoundsTheQueue(c: Config, r: Router, now: int, taken: seq<Item>,
                                              left: map<StreamId, seq<Pending>>, id: StreamId)
    requires r.due == [] && PassDone(r.pending, taken, left, {}, now)
    ensures var r' := Next(c, r, Pass(now, taken, left));
      && |Queue(r'.pending, id)| <= MAX_PENDING_FRAMES
      && Frames(Queue(r.pending, id)) == Of(r'.due, id) + Frames(Queue(r'.pending, id))
  {
    PassSplits(r.pending, taken, left, now, id);
  }

  // ---- reopening a stream whose frames are still on their way ----

  lemma {:induction false} RunSnoc(c: Config, acts: seq<Action>, a: Action)
    ensures Run(c, acts + [a]) == Next(c, Run(c, acts), a)
  {
    assert (acts + [a])[..|acts|] == acts;
  }

  const KEY10 := Frame(10, true, [])
  const DELTA11 := Frame(11, false, [])

  /** One frame released, queued, and taken by the playout thread. */
  function TakenNow(f: Frame): Action {
    Pass(0, [Item(1, f)], map[1 := []])
  }

  lemma {:induction false} KeyArrives(c: Config)
    ensures var r := Apply(c, Fresh(0), Arrived(KEY10, 1));
      && r.out == [Deliver(KEY10)]
      && r.state == State(true, false, false, 10, [], 0, None, [], 0)
  {
    var s := Fresh(0).(held := Rebase(KeepNewer([], 10), 10), aborted := []);
    assert s == Fresh(0);
    var t := Advance(s.(haveLast := true, awaiting := false, lossReported := false), KEY10);
    assert Release(t) == Step(t, []);
  }

  lemma {:induction false} DeltaArrives(c: Config)
    ensures var r := Apply(c, State(true, false, false, 10, [], 0, None, [], 0), Arrived(DELTA11, 1));
      r.out == [Deliver(DELTA11)]
  {
    var s := State(true, false, false, 10, [], 0, None, [], 0);
    var t := Advance(s.(haveLast := true, awaiting := false, lossReported := false), DELTA11);
    assert Release(t) == Step(t, []);
  }

  lemma {:induction false} ReleasedOne(id: StreamId, f: Frame)
    ensures Released(id, [Deliver(f)]) == [Item(id, f)]
  {
    assert [Deliver(f)][..0] == [];
  }

  lemma {:induction false} OneIsTaken(f: Frame)
    ensures PassDone(map[1 := [Pending(0, f)]], [Item(1, f)], map[1 := []], {}, 0)
  {
    var q := [Pending(0, f)];
    assert q[1..] == [] && q[..1] == q && q[..0] == [];
    assert DueCount(q, 0) == 1 && Frames(q) == [f];
    forall id
      ensures Of([Item(1, f)], id) == if id == 1 then [f] else []
    {
      OfSnoc([], Item(1, f), id);
      assert [] + [Item(1, f)] == [Item(1, f)];
    }
  }

  lemma {:induction false} TakeOne(c: Config, r: Router, f: Frame)
    requires r.outbox == [Item(1, f)] && r.due == [] && r.pending in {map[], map[1 := []]}
    ensures Next(c, Next(c, r, PushPending(0)), TakenNow(f)) ==
      r.(outbox := [], pending := map[1 := []], due := [Item(1, f)])
  {
    var r1 := Next(c, r, PushPending(0));
    assert Queue(r.pending, 1) + [Pending(0, f)] == [Pending(0, f)];
    assert r1.pending == map[1 := [Pending(0, f)]];
    OneIsTaken(f);
  }

  /** A stream is opened and plays its first keyframe. */
  lemma {:induction false} FirstKeyPlays(c: Config)
    ensures var r := Next(c, Next(c, Idle(), Open(1, 0)), Feed(1, Arrived(KEY10, 1)));
      Next(c, Next(c, Next(c, r, PushPending(0)), TakenNow(KEY10)), HandOut) ==
      Router(map[1 := Line(State(true, false, false, 10, [], 0, None, [], 0), [Deliver(KEY10)], [], [KEY10])],
             [], map[1 := []], [], None)
  {
    var r1 := Next(c, Idle(), Open(1, 0));
    var nothing: seq<Frame> := [];
    assert Of(Idle().due, 1) + Frames(Queue(Idle().pending, 1)) == nothing;
    assert r1.lines == map[1 := Line(Fresh(0), [], [], [])];
    KeyArrives(c);
    ReleasedOne(1, KEY10);
    var r2 := Next(c, r1, Feed(1, Arrived(KEY10, 1)));
    assert [] + [Deliver(KEY10)] == [Deliver(KEY10)];
    TakeOne(c, r2, KEY10);
    var line := Line(State(true, false, false, 10, [], 0, None, [], 0), [Deliver(KEY10)], [], []);
    assert r2.lines == map[1 := line];
    var r3 := r2.(outbox := [], pending := map[1 := []], due := [Item(1, KEY10)]);
    assert r3.due[1..] == [] && line.heard + [KEY10] == [KEY10];
    assert Next(c, r3, HandOut).lines == map[1 := line.(heard := [KEY10])];
  }

  /** A frame the playout thread has taken is handed out after the stream is opened again. */
  lemma {:induction false} TakenPlaysFirst(c: Config, r: Router, f: Frame)
    requires r.due == [Item(1, f)] && r.outbox == [] && r.closing.None?
    ensures var u := Next(c, Next(c, r, Open(1, 0)), HandOut); 1 in u.lines && u.lines[1].heard == [f]
  {
    var t := Next(c, r, Open(1, 0));
    assert 1 in t.lines && t.lines[1].heard == [] && t.due == [Item(1, f)];
  }

  /** Its next delta is taken for playout, the stream is reopened, and the delta is handed out. */
  lemma {:induction false} OldDeltaPlaysFirst(c: Config, r: Router)
    requires r == Router(map[1 := Line(State(true, false, false, 10, [], 0, None, [], 0), [Deliver(KEY10)], [], [KEY10])],
                         [], map[1 := []], [], None)
    ensures var t := Next(c, Next(c, Next(c, r, Feed(1, Arrived(DELTA11, 1))), PushPending(0)), TakenNow(DELTA11));
      var u := Next(c, Next(c, t, Open(1, 0)), HandOut);
      1 in u.lines && u.lines[1].heard == [DELTA11]
  {
    DeltaArrives(c);
    ReleasedOne(1, DELTA11);
    var r1 := Next(c, r, Feed(1, Arrived(DELTA11, 1)));
    assert r1.outbox == [Item(1, DELTA11)] && r1.due == [] && r1.pending == map[1 := []] && r1.closing.None?;
    TakeOne(c, r1, DELTA11);
    TakenPlaysFirst(c, Next(c, Next(c, r1, PushPending(0)), TakenNow(DELTA11)), DELTA11);
  }

  function Reopened(): seq<Action> {
    [Open(1, 0)] + [Feed(1, Arrived(KEY10, 1))] + [PushPending(0)] + [TakenNow(KEY10)] + [HandOut] +
    [Feed(1, Arrived(DELTA11, 1))] + [PushPending(0)] + [TakenNow(DELTA11)] + [Open(1, 0)] + [HandOut]
  }

  lemma {:induction false} ReopenedRuns(c: Config)
    ensures var r := Next(c, Next(c, Idle(), Open(1, 0)), Feed(1, Arrived(KEY10, 1)));
      var s := Next(c, Next(c, Next(c, r, PushPending(0)), TakenNow(KEY10)), HandOut);
      var t := Next(c, Next(c, Next(c, s, Feed(1, Arrived(DELTA11, 1))), PushPending(0)), TakenNow(DELTA11));
      Run(c, Reopened()) == Next(c, Next(c, t, Open(1, 0)), HandOut)
  {
    var a0: seq<Action> := [];
    assert a0 + [Open(1, 0)] == [Open(1, 0)];
    RunSnoc(c, a0, Open(1, 0));
    var a1 := [Open(1, 0)];
    RunSnoc(c, a1, Feed(1, Arrived(KEY10, 1)));
    var a2 := a1 + [Feed(1, Arrived(KEY10, 1))];
    RunSnoc(c, a2, PushPending(0));
    var a3 := a2 + [PushPending(0)];
    RunSnoc(c, a3, TakenNow(KEY10));
    var a4 := a3 + [TakenNow(KEY10)];
    RunSnoc(c, a4, HandOut);
    var a5 := a4 + [HandOut];
    RunSnoc(c, a5, Feed(1, Arrived(DELTA11, 1)));
    var a6 := a5 + [Feed(1, Arrived(DELTA11, 1))];
    RunSnoc(c, a6, PushPending(0));
    var a7 := a6 + [PushPending(0)];
    RunSnoc(c, a7, TakenNow(DELTA11));
    var a8 := a7 + [TakenNow(DELTA11)];
    RunSnoc(c, a8, Open(1, 0));
    RunSnoc(c, a8 + [Open(1, 0)], HandOut);
  }

  /**
   Reopening a stream does not recall what the playout thread has already taken: in this
   run the first frame the reopened stream hands its decoder is a delta of its previous
   life. Decode safety at the decoder needs nothing left over.
   */
  lemma {:induction false} ReopeningBreaksDecodeSafety(c: Config)
    ensures var r := Run(c, Reopened());
      1 in r.lines && r.lines[1].heard == [DELTA11] && !DecodeSafe(r.lines[1].heard)
  {
    ReopenedRuns(c);
    FirstKeyPlays(c);
    var s := Router(map[1 := Line(State(true, false, false, 10, [], 0, None, [], 0), [Deliver(KEY10)], [], [KEY10])],
                    [], map[1 := []], [], None);
    OldDeltaPlaysFirst(c, s);
    var heard := [DELTA11];
    assert !DecodableAt(heard, 0);
  }
}
