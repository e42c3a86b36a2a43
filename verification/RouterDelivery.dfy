/**
 The router from end to end: an open stream's buffer has seen exactly the events fed to it
 since it was opened, and everything the buffer released for them can be heard, in order.
 */
module RouterDelivery {
  import opened Basics
  import opened FrameReorder
  import opened ReorderSafety
  import opened ReceiveRouter
  import opened RouterRuns
  import opened RouterReopening

  /** Does this step open the stream, or feed it? Both wait for a call of a buffer to be through. */
  ghost predicate Opens(r: Router, a: Action, id: StreamId) {
    a.Open? && a.id == id && r.outbox == [] && r.closing.None?
  }

  ghost predicate Feeds(r: Router, a: Action, id: StreamId) {
    a.Feed? && a.id == id && r.outbox == [] && id in r.lines
  }

  /** The events fed to the stream since it was last opened. */
  ghost function Fed(c: Config, acts: seq<Action>, id: StreamId): seq<Event>
    decreases |acts|
  {
    if acts == [] then []
    else
      var n := |acts| - 1;
      var r := RouterRuns.Run(c, acts[..n]);
      if Opens(r, acts[n], id) then []
      else if Feeds(r, acts[n], id) then Fed(c, acts[..n], id) + [acts[n].event]
      else Fed(c, acts[..n], id)
  }

  /** The round-trip time it was last opened with. */
  ghost function OpenedWith(c: Config, acts: seq<Action>, id: StreamId): nat
    decreases |acts|
  {
    if acts == [] then 0
    else
      var n := |acts| - 1;
      if Opens(RouterRuns.Run(c, acts[..n]), acts[n], id) then acts[n].rtt else OpenedWith(c, acts[..n], id)
  }

  /** What a step does to an open stream's buffer. */
  lemma {:induction false} BufferStep(c: Config, r: Router, a: Action, id: StreamId)
    requires id in Next(c, r, a).lines
    ensures Opens(r, a, id) ==> var l := Next(c, r, a).lines[id]; l.buffer == Fresh(a.rtt) && l.trace == []
    ensures !Opens(r, a, id) ==> id in r.lines
    ensures Feeds(r, a, id) ==>
      var l := Next(c, r, a).lines[id]; var step := FrameReorder.Apply(c, r.lines[id].buffer, a.event);
      l.buffer == step.state && l.trace == r.lines[id].trace + step.out
    ensures !Opens(r, a, id) && !Feeds(r, a, id) ==>
      var l := Next(c, r, a).lines[id]; l.buffer == r.lines[id].buffer && l.trace == r.lines[id].trace
  {
  }

  /** The stream's buffer is where a reorder buffer gets with these events. */
  ghost predicate HasSeen(c: Config, r: Router, id: StreamId, rtt: nat, events: seq<Event>) {
    id in r.lines ==>
      var run := FrameReorder.Run(c, rtt, events);
      r.lines[id].buffer == run.state && r.lines[id].trace == run.out
  }

  lemma {:induction false} SeesOneMore(c: Config, rtt: nat, events: seq<Event>, e: Event)
    ensures var before := FrameReorder.Run(c, rtt, events); var step := FrameReorder.Apply(c, before.state, e);
      FrameReorder.Run(c, rtt, events + [e]) == Step(step.state, before.out + step.out)
  {
    assert (events + [e])[..|events|] == events;
  }

  lemma {:induction false} SeenStep(c: Config, r: Router, a: Action, id: StreamId, rtt: nat, events: seq<Event>)
    requires HasSeen(c, r, id, rtt, events)
    ensures Opens(r, a, id) ==> HasSeen(c, Next(c, r, a), id, a.rtt, [])
    ensures Feeds(r, a, id) ==> HasSeen(c, Next(c, r, a), id, rtt, events + [a.event])
    ensures !Opens(r, a, id) && !Feeds(r, a, id) ==> HasSeen(c, Next(c, r, a), id, rtt, events)
  {
    if id in Next(c, r, a).lines {
      BufferStep(c, r, a, id);
      if Feeds(r, a, id) { SeesOneMore(c, rtt, events, a.event); }
    }
  }

  /** In every interleaving, the buffer of an open stream has seen exactly what was fed to it since it was opened. */
  lemma {:induction false} BufferSeesWhatIsFed(c: Config, acts: seq<Action>, id: StreamId)
    ensures HasSeen(c, RouterRuns.Run(c, acts), id, OpenedWith(c, acts, id), Fed(c, acts, id))
    decreases |acts|
  {
    if acts == [] {
    } else {
      var n := |acts| - 1;
      BufferSeesWhatIsFed(c, acts[..n], id);
      SeenStep(c, RouterRuns.Run(c, acts[..n]), acts[n], id, OpenedWith(c, acts[..n], id), Fed(c, acts[..n], id));
    }
  }

  /** What a call of a buffer released is queued, frame by frame. */
  lemma {:induction false} QueueAll(c: Config, r: Router, id: StreamId) returns (more: seq<Action>)
    requires id in r.lines
    ensures Untouched(more, id)
    ensures var u := RunFrom(c, r, more); u.outbox == [] && u.lines == r.lines
    decreases |r.outbox|
  {
    if r.outbox == [] {
      more := [];
    } else {
      var rest := QueueAll(c, Next(c, r, PushPending(0)), id);
      more := [PushPending(0)] + rest;
      assert more[1..] == rest;
    }
  }

  lemma {:induction false} AllHeard(l: Line)
    requires Flows(l, [], [], [])
    ensures l.heard == l.leftover + Delivered(l.trace)
  {
    assert l.heard + [] + [] + [] == l.heard;
  }

  /**
   From every point of every run an open stream can catch up: then its decoder has heard what
   was left over when it was opened and then exactly what a reorder buffer delivers for the
   events fed to it since. Nothing released is lost on the way.
   */
  lemma {:induction false} EverythingReleasedIsHeard(c: Config, acts: seq<Action>, id: StreamId) returns (more: seq<Action>)
    requires id in RouterRuns.Run(c, acts).lines
    ensures Untouched(more, id)
    ensures var r := RouterRuns.Run(c, acts); var u := RouterRuns.Run(c, acts + more);
      id in u.lines && u.lines[id].heard ==
        r.lines[id].leftover + Delivered(FrameReorder.Run(c, OpenedWith(c, acts, id), Fed(c, acts, id)).out)
  {
    var r := RouterRuns.Run(c, acts);
    var first := QueueAll(c, r, id);
    var rest := CatchUp(c, RunFrom(c, r, first), id);
    more := first + rest;
    RunFromJoins(c, r, first, rest);
    RunJoins(c, acts, more);
    LeftoverStays(c, r, more, id);
    RouterRuns.RunKeeps(c, acts + more);
    var u := RouterRuns.Run(c, acts + more);
    assert FlowsAt(u, id);
    AllHeard(u.lines[id]);
    BufferSeesWhatIsFed(c, acts, id);
  }
}
