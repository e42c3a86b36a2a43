/**
 What holds of every sequence of pushes and playout slots of one talker: the FEC pair is
 never broken, concealment is bounded, the playout clock never goes back while a baseline
 is held, and every accepted packet is played once, evicted, or still queued.
 */
module VoiceRuns {
  import opened Basics
  import opened SequenceNumbers
  import opened VoiceJitter

  datatype Op = PushOp(packet: Packet) | DecodeOp

  /** `at` is the packet's place on an unwrapped clock that starts with each baseline. */
  datatype Item =
    | Rebased
    | Evicted(packet: Packet)
    | Played(packet: Packet, at: int)
    | Recovered(packet: Packet)
    | Concealed

  /** `pos` is the slot owed on the unwrapped clock; `accepted` every packet taken in. */
  datatype History = History(stream: Stream, pos: int, accepted: seq<Packet>, trace: seq<Item>)

  function Begin(): History {
    History(Fresh(), 0, [], [])
  }

  function PushStep(h: History, p: Packet): History {
    var s := h.stream;
    var s1 := Baseline(s, p);
    var r := Push(s, p);
    var pos := (if s.hasSeq then h.pos else p.seqNo) + Ahead(s1.next, r.stream.next);
    History(r.stream, pos,
      h.accepted + (if r.accepted then [p] else []),
      h.trace + (if s.hasSeq then [] else [Rebased]) + (if r.evicted.Some? then [Evicted(r.evicted.value)] else []))
  }

  function DecodeStep(h: History): History {
    var r := Decode(h.stream);
    match r.call
    case None => h.(stream := r.stream)
    case Some(Plc) => h.(stream := r.stream, pos := h.pos + 1, trace := h.trace + [Concealed])
    case Some(Fec(p)) => h.(stream := r.stream, pos := h.pos + 1, trace := h.trace + [Recovered(p)])
    case Some(Normal(p)) =>
      var at := h.pos + Ahead(h.stream.next, p.seqNo);
      h.(stream := r.stream, pos := at + 1, trace := h.trace + [Played(p, at)])
  }

  function Apply(h: History, op: Op): History {
    match op
    case PushOp(p) => PushStep(h, p)
    case DecodeOp => DecodeStep(h)
  }

  function Run(ops: seq<Op>): History
    decreases |ops|
  {
    if ops == [] then Begin() else Apply(Run(ops[..|ops| - 1]), ops[|ops| - 1])
  }

  // ---- the FEC pair ----

  /** A slot filled by FEC from a packet is followed by that packet's own decode, or its eviction. */
  ghost predicate PairedAt(trace: seq<Item>, i: int)
    requires 0 <= i < |trace| - 1
  {
    trace[i].Recovered? ==>
      trace[i + 1] == Evicted(trace[i].packet) ||
      (trace[i + 1].Played? && trace[i + 1].packet == trace[i].packet)
  }

  ghost predicate Paired(trace: seq<Item>) {
    forall i :: 0 <= i < |trace| - 1 ==> PairedAt(trace, i)
  }

  /** While the pair is open its packet is the head, and owed. */
  ghost predicate PairOpen(h: History) {
    h.trace != [] && h.trace[|h.trace| - 1].Recovered? ==>
      h.stream.primed && HeadOwed(h.stream) && h.stream.queue[0] == h.trace[|h.trace| - 1].packet
  }

  lemma {:induction false} PairedExtends(trace: seq<Item>, x: Item)
    requires Paired(trace)
    requires trace != [] && trace[|trace| - 1].Recovered? ==>
      x == Evicted(trace[|trace| - 1].packet) || (x.Played? && x.packet == trace[|trace| - 1].packet)
    ensures Paired(trace + [x])
  {
    var t := trace + [x];
    forall i | 0 <= i < |t| - 1
      ensures PairedAt(t, i)
    {
      if i < |trace| - 1 { assert PairedAt(trace, i); }
    }
  }

  /** An owed head stays at the head until a push evicts it. */
  lemma {:induction false} OwedHeadStays(s: Stream, p: Packet)
    requires VoiceJitter.Valid(s) && HeadOwed(s)
    ensures var r := Push(s, p);
      if r.evicted.Some? then r.evicted.value == s.queue[0]
      else r.stream.queue != [] && r.stream.queue[0] == s.queue[0] && r.stream.next == s.next && r.stream.primed == s.primed
  {
    if Push(s, p).accepted {
      InsertFacts(s.queue, s.next, p);
    }
  }

  lemma {:induction false} PushKeepsPair(h: History, p: Packet)
    requires VoiceJitter.Valid(h.stream) && Paired(h.trace) && PairOpen(h)
    ensures Paired(PushStep(h, p).trace) && PairOpen(PushStep(h, p))
  {
    var s := h.stream;
    var r := Push(s, p);
    var t1 := h.trace + if s.hasSeq then [] else [Rebased];
    if !s.hasSeq { PairedExtends(h.trace, Rebased); } else { assert t1 == h.trace; }
    if HeadOwed(s) { OwedHeadStays(s, p); }
    if r.evicted.Some? {
      PairedExtends(t1, Evicted(r.evicted.value));
    } else {
      assert PushStep(h, p).trace == t1 + [] == t1;
    }
  }

  lemma {:induction false} DecodeKeepsPair(h: History)
    requires VoiceJitter.Valid(h.stream) && Paired(h.trace) && PairOpen(h)
    ensures Paired(DecodeStep(h).trace) && PairOpen(DecodeStep(h))
  {
    var h' := DecodeStep(h);
    if h'.trace != h.trace {
      PairedExtends(h.trace, h'.trace[|h.trace|]);
    }
  }

  // ---- bounded concealment ----

  /** Concealed slots since the last slot that decoded a packet. */
  function ConcealedRun(trace: seq<Item>): nat
    decreases |trace|
  {
    if trace == [] then 0
    else
      var rest := ConcealedRun(trace[..|trace| - 1]);
      match trace[|trace| - 1]
      case Concealed => rest + 1
      case Rebased => rest
      case Evicted(_) => rest
      case _ => 0
  }

  /** Either the counter is exact, or the next decoder call is sure to be a packet's own. */
  ghost predicate RunCounted(h: History) {
    && ConcealedRun(h.trace) <= PLC_MAX_FRAMES
    && (h.stream.primed ==> ConcealedRun(h.trace) == h.stream.empty || HeadOwed(h.stream))
  }

  lemma {:induction false} RunExtends(trace: seq<Item>, x: Item)
    ensures ConcealedRun(trace + [x]) ==
      match x
      case Concealed => ConcealedRun(trace) + 1
      case Rebased => ConcealedRun(trace)
      case Evicted(_) => ConcealedRun(trace)
      case _ => 0
  {
    assert (trace + [x])[..|trace|] == trace;
  }

  /** After a push the counter is as it was, or the head is the packet owed. */
  lemma {:induction false} PushAndCounter(s: Stream, p: Packet)
    requires VoiceJitter.Valid(s)
    ensures var t := Push(s, p).stream;
      t.primed ==> s.primed && (HeadOwed(t) || (!HeadOwed(s) && t.empty == s.empty))
  {
    EvictionOwesTheHead(s, p);
    if HeadOwed(s) { OwedHeadStays(s, p); }
  }

  lemma {:induction false} PushTraceRun(h: History, p: Packet)
    ensures ConcealedRun(PushStep(h, p).trace) == ConcealedRun(h.trace)
  {
    var r := Push(h.stream, p);
    var t1 := h.trace + if h.stream.hasSeq then [] else [Rebased];
    if h.stream.hasSeq { assert t1 == h.trace; } else { RunExtends(h.trace, Rebased); }
    if r.evicted.Some? { RunExtends(t1, Evicted(r.evicted.value)); } else { assert t1 + [] == t1; }
  }

  lemma {:induction false} PushKeepsRun(h: History, p: Packet)
    requires VoiceJitter.Valid(h.stream) && RunCounted(h)
    ensures RunCounted(PushStep(h, p))
  {
    PushAndCounter(h.stream, p);
    PushTraceRun(h, p);
  }

  /** What a slot does to the counter, by the call it makes. */
  lemma {:induction false} DecodeAndCounter(s: Stream)
    requires VoiceJitter.Valid(s)
    ensures var r := Decode(s);
      match r.call
      case None => !r.stream.primed
      case Some(Plc) => s.primed && !HeadOwed(s) && r.stream.empty == s.empty + 1 <= PLC_MAX_FRAMES
      case Some(_) => r.stream.empty == 0
  {
  }

  lemma {:induction false} DecodeTraceRun(h: History)
    ensures ConcealedRun(DecodeStep(h).trace) ==
      match Decode(h.stream).call
      case None => ConcealedRun(h.trace)
      case Some(Plc) => ConcealedRun(h.trace) + 1
      case Some(_) => 0
  {
    var h' := DecodeStep(h);
    if Decode(h.stream).call.Some? { RunExtends(h.trace, h'.trace[|h.trace|]); }
  }

  lemma {:induction false} DecodeKeepsRun(h: History)
    requires VoiceJitter.Valid(h.stream) && RunCounted(h)
    ensures RunCounted(DecodeStep(h))
  {
    DecodeAndCounter(h.stream);
    DecodeTraceRun(h);
    assert DecodeStep(h).stream == Decode(h.stream).stream;
  }

  // ---- the playout clock ----

  ghost predicate RebasedAfter(trace: seq<Item>, i: nat) {
    exists j :: i < j < |trace| && trace[j] == Rebased
  }

  /** `pos` is the slot owed, unwrapped, and everything played under this baseline lies behind it. */
  ghost predicate ClockExact(h: History) {
    && (h.stream.hasSeq ==> (h.pos - h.stream.next) % TWO16 == 0)
    && (forall i :: 0 <= i < |h.trace| && h.trace[i].Played? ==>
          (h.trace[i].at - h.trace[i].packet.seqNo) % TWO16 == 0)
    && (forall i :: 0 <= i < |h.trace| && h.trace[i].Played? && h.stream.hasSeq && !RebasedAfter(h.trace, i) ==>
          h.trace[i].at < h.pos)
  }

  ghost predicate RebasedBetween(trace: seq<Item>, i: int, j: int)
    requires 0 <= i < j < |trace|
  {
    exists b :: i < b < j && trace[b] == Rebased
  }

  /** Under one baseline packets are played in strictly increasing order, so never twice. */
  ghost predicate PlayedInOrder(trace: seq<Item>) {
    forall i, j :: 0 <= i < j < |trace| && trace[i].Played? && trace[j].Played? ==>
      trace[i].at < trace[j].at || RebasedBetween(trace, i, j)
  }

  lemma {:induction false} StillBetween(trace: seq<Item>, more: seq<Item>, i: int, j: int)
    requires 0 <= i < j < |trace| && RebasedBetween(trace, i, j)
    ensures RebasedBetween(trace + more, i, j)
  {
    var b :| i < b < j && trace[b] == Rebased;
    assert (trace + more)[b] == Rebased;
  }

  lemma {:induction false} Congruent(pos: int, next: Seq16, q: Seq16)
    requires (pos - next) % TWO16 == 0
    ensures (pos + Ahead(next, q) - q) % TWO16 == 0
    ensures (pos + 1 - Succ16(next)) % TWO16 == 0
  {
    var k := (pos - next) / TWO16;
    assert pos - next == k * TWO16;
    AheadIsTheWrappedDifference(next, q, Ahead(next, q));
    AheadIsTheWrappedDifference(next, Succ16(next), 1);
    var a := (q - next - Ahead(next, q)) / TWO16;
    assert q - next - Ahead(next, q) == a * TWO16;
    assert pos + Ahead(next, q) - q == (k - a) * TWO16;
    var b := (Succ16(next) - next - 1) / TWO16;
    assert Succ16(next) - next - 1 == b * TWO16;
    assert pos + 1 - Succ16(next) == (k - b) * TWO16;
  }

  lemma {:induction false} StillRebased(trace: seq<Item>, more: seq<Item>, i: nat)
    requires RebasedAfter(trace, i)
    ensures RebasedAfter(trace + more, i)
  {
    var j :| i < j < |trace| && trace[j] == Rebased;
    assert (trace + more)[j] == Rebased;
  }

  /** A clock that moves on, with no packet played, stays exact. */
  lemma {:induction false} ClockMoves(h: History, h': History, more: seq<Item>)
    requires ClockExact(h) && h'.trace == h.trace + more
    requires forall i :: 0 <= i < |more| ==> !more[i].Played?
    requires h'.stream.hasSeq ==> (h'.pos - h'.stream.next) % TWO16 == 0
    requires h'.stream.hasSeq ==> (h.stream.hasSeq && h.pos <= h'.pos) || (exists i :: 0 <= i < |more| && more[i] == Rebased)
    ensures ClockExact(h')
  {
    forall i | 0 <= i < |h'.trace| && h'.trace[i].Played? && h'.stream.hasSeq
      ensures RebasedAfter(h'.trace, i) || h'.trace[i].at < h'.pos
    {
      if RebasedAfter(h.trace, i) {
        StillRebased(h.trace, more, i);
      }
      if k :| 0 <= k < |more| && more[k] == Rebased {
        assert h'.trace[|h.trace| + k] == Rebased;
      }
    }
  }

  lemma {:induction false} PushKeepsClock(h: History, p: Packet)
    requires VoiceJitter.Valid(h.stream) && ClockExact(h)
    ensures ClockExact(PushStep(h, p))
    ensures h.stream.hasSeq ==> h.pos <= PushStep(h, p).pos
  {
    var s := h.stream;
    var s1 := Baseline(s, p);
    var r := Push(s, p);
    var more := (if s.hasSeq then [] else [Rebased]) + (if r.evicted.Some? then [Evicted(r.evicted.value)] else []);
    assert PushStep(h, p).trace == h.trace + more;
    assert !s.hasSeq ==> more[0] == Rebased;
    Congruent(if s.hasSeq then h.pos else p.seqNo, s1.next, r.stream.next);
    PushMovesForward(s, p);
    ClockMoves(h, PushStep(h, p), more);
  }

  lemma {:induction false} PushMovesForward(s: Stream, p: Packet)
    requires VoiceJitter.Valid(s)
    ensures Ahead(Baseline(s, p).next, Push(s, p).stream.next) >= 0
    ensures Push(s, p).stream.hasSeq
  {
  }

  lemma {:induction false} DecodeKeepsClock(h: History)
    requires VoiceJitter.Valid(h.stream) && ClockExact(h)
    ensures ClockExact(DecodeStep(h))
    ensures h.pos <= DecodeStep(h).pos
  {
    var s := h.stream;
    var r := Decode(s);
    var h' := DecodeStep(h);
    match r.call
    case None =>
      ClockMoves(h, h', []);
    case Some(Normal(p)) =>
      PlayedClock(h);
    case Some(x) =>
      Congruent(h.pos, s.next, s.next);
      ClockMoves(h, h', [h'.trace[|h.trace|]]);
  }

  lemma {:induction false} PlayedClock(h: History)
    requires VoiceJitter.Valid(h.stream) && ClockExact(h)
    requires Decode(h.stream).call.Some? && Decode(h.stream).call.value.Normal?
    ensures ClockExact(DecodeStep(h))
    ensures h.pos <= DecodeStep(h).pos - 1
  {
    var s := h.stream;
    var p := Decode(s).call.value.packet;
    var h' := DecodeStep(h);
    var at := h.pos + Ahead(s.next, p.seqNo);
    assert p == s.queue[0] && h'.stream.next == Succ16(p.seqNo);
    Congruent(h.pos, s.next, p.seqNo);
    Congruent(at, p.seqNo, p.seqNo);
    forall i | 0 <= i < |h'.trace| && h'.trace[i].Played? && h'.stream.hasSeq
      ensures RebasedAfter(h'.trace, i) || h'.trace[i].at < h'.pos
    {
      if i < |h.trace| && RebasedAfter(h.trace, i) { StillRebased(h.trace, [Played(p, at)], i); }
    }
  }

  lemma {:induction false} InOrderExtends(h: History, x: Item)
    requires ClockExact(h) && PlayedInOrder(h.trace) && h.stream.hasSeq
    requires x.Played? ==> x.at >= h.pos
    ensures PlayedInOrder(h.trace + [x])
  {
    var n := |h.trace|;
    var t := h.trace + [x];
    forall i, j | 0 <= i < j < |t| && t[i].Played? && t[j].Played?
      ensures t[i].at < t[j].at || RebasedBetween(t, i, j)
    {
      assert t[i] == h.trace[i];
      if j < n {
        assert t[j] == h.trace[j];
        if RebasedBetween(h.trace, i, j) { StillBetween(h.trace, [x], i, j); }
      } else if RebasedAfter(h.trace, i) {
        var b :| i < b < n && h.trace[b] == Rebased;
        assert t[b] == Rebased;
      }
    }
  }

  lemma {:induction false} NothingPlayed(trace: seq<Item>, more: seq<Item>)
    requires PlayedInOrder(trace) && forall i :: 0 <= i < |more| ==> !more[i].Played?
    ensures PlayedInOrder(trace + more)
  {
    var t := trace + more;
    forall i, j | 0 <= i < j < |t| && t[i].Played? && t[j].Played?
      ensures t[i].at < t[j].at || RebasedBetween(t, i, j)
    {
      assert j < |trace|;
      assert t[i] == trace[i] && t[j] == trace[j];
      if RebasedBetween(trace, i, j) { StillBetween(trace, more, i, j); }
    }
  }

  /** A slot that makes a call has a baseline, and plays a packet no earlier than the slot owed. */
  lemma {:induction false} PlaysAhead(h: History)
    requires VoiceJitter.Valid(h.stream)
    ensures var t := DecodeStep(h).trace;
      t == h.trace ||
      (h.stream.hasSeq && |t| == |h.trace| + 1 && t == h.trace + [t[|h.trace|]] &&
       (t[|h.trace|].Played? ==> t[|h.trace|].at >= h.pos))
  {
  }

  lemma {:induction false} PushKeepsOrder(h: History, p: Packet)
    requires PlayedInOrder(h.trace)
    ensures PlayedInOrder(PushStep(h, p).trace)
  {
    var r := Push(h.stream, p);
    var more := (if h.stream.hasSeq then [] else [Rebased]) + (if r.evicted.Some? then [Evicted(r.evicted.value)] else []);
    assert PushStep(h, p).trace == h.trace + more;
    NothingPlayed(h.trace, more);
  }

  lemma {:induction false} DecodeKeepsOrder(h: History)
    requires VoiceJitter.Valid(h.stream) && ClockExact(h) && PlayedInOrder(h.trace)
    ensures PlayedInOrder(DecodeStep(h).trace)
  {
    PlaysAhead(h);
    var t := DecodeStep(h).trace;
    if t != h.trace { InOrderExtends(h, t[|h.trace|]); }
  }

  // ---- conservation ----

  function PlayedPackets(trace: seq<Item>): multiset<Packet>
    decreases |trace|
  {
    if trace == [] then multiset{}
    else
      PlayedPackets(trace[..|trace| - 1]) +
      if trace[|trace| - 1].Played? then multiset{trace[|trace| - 1].packet} else multiset{}
  }

  function EvictedPackets(trace: seq<Item>): multiset<Packet>
    decreases |trace|
  {
    if trace == [] then multiset{}
    else
      EvictedPackets(trace[..|trace| - 1]) +
      if trace[|trace| - 1].Evicted? then multiset{trace[|trace| - 1].packet} else multiset{}
  }

  /** Every accepted packet has been played, has been evicted, or is queued: one of the three, once. */
  ghost predicate Conserved(h: History) {
    multiset(h.accepted) == PlayedPackets(h.trace) + EvictedPackets(h.trace) + multiset(h.stream.queue)
  }

  lemma {:induction false} TotalsExtend(trace: seq<Item>, x: Item)
    ensures PlayedPackets(trace + [x]) == PlayedPackets(trace) + if x.Played? then multiset{x.packet} else multiset{}
    ensures EvictedPackets(trace + [x]) == EvictedPackets(trace) + if x.Evicted? then multiset{x.packet} else multiset{}
  {
    assert (trace + [x])[..|trace|] == trace;
  }

  lemma {:induction false} Rebalance(accepted: multiset<Packet>, played: multiset<Packet>, evicted: multiset<Packet>,
                  queue: multiset<Packet>, queue': multiset<Packet>,
                  more: multiset<Packet>, gone: multiset<Packet>, heard: multiset<Packet>)
    requires accepted == played + evicted + queue
    requires queue' + gone + heard == queue + more
    ensures accepted + more == (played + heard) + (evicted + gone) + queue'
  {
    calc {
      accepted + more;
      played + evicted + (queue + more);
      played + evicted + (queue' + gone + heard);
      (played + heard) + (evicted + gone) + queue';
    }
  }

  lemma {:induction false} PushConserves(h: History, p: Packet)
    requires Conserved(h)
    ensures Conserved(PushStep(h, p))
  {
    var s := h.stream;
    var r := Push(s, p);
    var t1 := h.trace + if s.hasSeq then [] else [Rebased];
    TotalsExtend(h.trace, Rebased);
    assert s.hasSeq ==> t1 == h.trace;
    assert PlayedPackets(t1) == PlayedPackets(h.trace) && EvictedPackets(t1) == EvictedPackets(h.trace);
    PushBalance(s, p);
    var more := if r.accepted then multiset{p} else multiset{};
    var gone := if r.evicted.Some? then multiset{r.evicted.value} else multiset{};
    Rebalance(multiset(h.accepted), PlayedPackets(t1), EvictedPackets(t1),
              multiset(s.queue), multiset(r.stream.queue), more, gone, multiset{});
    PushTotals(h, p, t1, gone);
  }

  lemma {:induction false} PushTotals(h: History, p: Packet, t1: seq<Item>, gone: multiset<Packet>)
    requires t1 == h.trace + if h.stream.hasSeq then [] else [Rebased]
    requires var e := Push(h.stream, p).evicted; gone == if e.Some? then multiset{e.value} else multiset{}
    ensures PlayedPackets(PushStep(h, p).trace) == PlayedPackets(t1) + multiset{}
    ensures EvictedPackets(PushStep(h, p).trace) == EvictedPackets(t1) + gone
    ensures multiset(PushStep(h, p).accepted) ==
      multiset(h.accepted) + if Push(h.stream, p).accepted then multiset{p} else multiset{}
  {
    var r := Push(h.stream, p);
    if r.evicted.Some? { TotalsExtend(t1, Evicted(r.evicted.value)); } else { assert t1 + [] == t1; }
  }

  lemma {:induction false} DecodeConserves(h: History)
    requires Conserved(h)
    ensures Conserved(DecodeStep(h))
  {
    var h' := DecodeStep(h);
    var r := Decode(h.stream);
    DecodeBalance(h.stream);
    var heard := if r.call.Some? && r.call.value.Normal? then multiset{r.call.value.packet} else multiset{};
    Rebalance(multiset(h.accepted), PlayedPackets(h.trace), EvictedPackets(h.trace),
              multiset(h.stream.queue), multiset(r.stream.queue), multiset{}, multiset{}, heard);
    DecodeTotals(h, heard);
  }

  lemma {:induction false} DecodeTotals(h: History, heard: multiset<Packet>)
    requires var r := Decode(h.stream);
      heard == if r.call.Some? && r.call.value.Normal? then multiset{r.call.value.packet} else multiset{}
    ensures PlayedPackets(DecodeStep(h).trace) == PlayedPackets(h.trace) + heard
    ensures EvictedPackets(DecodeStep(h).trace) == EvictedPackets(h.trace) + multiset{}
  {
    var h' := DecodeStep(h);
    if h'.trace != h.trace { TotalsExtend(h.trace, h'.trace[|h.trace|]); }
  }

  // ---- whole runs ----

  ghost predicate Good(h: History) {
    && VoiceJitter.Valid(h.stream)
    && Paired(h.trace) && PairOpen(h)
    && RunCounted(h)
    && ClockExact(h) && PlayedInOrder(h.trace)
    && Conserved(h)
  }

  lemma {:induction false} PushIsGood(h: History, p: Packet)
    requires Good(h)
    ensures Good(PushStep(h, p))
    ensures h.stream.hasSeq ==> h.pos <= PushStep(h, p).pos
  {
    PushKeeps(h.stream, p);
    PushKeepsPair(h, p);
    PushKeepsRun(h, p);
    PushKeepsClock(h, p);
    PushKeepsOrder(h, p);
    PushConserves(h, p);
    assert VoiceJitter.Valid(PushStep(h, p).stream);
  }

  lemma {:induction false} DecodeIsGood(h: History)
    requires Good(h)
    ensures Good(DecodeStep(h))
    ensures h.pos <= DecodeStep(h).pos
  {
    DecodeKeeps(h.stream);
    DecodeKeepsPair(h);
    DecodeKeepsRun(h);
    DecodeKeepsClock(h);
    DecodeKeepsOrder(h);
    DecodeConserves(h);
    assert VoiceJitter.Valid(DecodeStep(h).stream);
  }

  lemma {:induction false} ApplyKeeps(h: History, op: Op)
    requires Good(h)
    ensures Good(Apply(h, op))
    ensures h.stream.hasSeq ==> h.pos <= Apply(h, op).pos
  {
    match op
    case PushOp(p) => PushIsGood(h, p);
    case DecodeOp => DecodeIsGood(h);
  }

  lemma {:induction false} RunKeeps(ops: seq<Op>)
    ensures Good(Run(ops))
    decreases |ops|
  {
    if ops == [] {
    } else {
      RunKeeps(ops[..|ops| - 1]);
      ApplyKeeps(Run(ops[..|ops| - 1]), ops[|ops| - 1]);
    }
  }

  /** The queue of every reachable stream is sorted, duplicate-free, bounded and in the window. */
  lemma {:induction false} EveryQueueIsSound(ops: seq<Op>)
    ensures VoiceJitter.Valid(Run(ops).stream)
  {
    RunKeeps(ops);
  }

  /** Every FEC slot is followed by the normal decode of the same packet, or by its eviction. */
  lemma {:induction false} EveryFecIsPaired(ops: seq<Op>)
    ensures Paired(Run(ops).trace)
  {
    RunKeeps(ops);
  }

  /** Never more than PLC_MAX_FRAMES concealed slots between two decoded ones. */
  lemma {:induction false} ConcealmentIsBounded(ops: seq<Op>)
    ensures ConcealedRun(Run(ops).trace) <= PLC_MAX_FRAMES
  {
    RunKeeps(ops);
  }

  /** Packets are played in increasing order under one baseline, and none is lost track of. */
  lemma {:induction false} PacketsPlayOnceInOrder(ops: seq<Op>)
    ensures PlayedInOrder(Run(ops).trace)
    ensures Conserved(Run(ops))
  {
    RunKeeps(ops);
  }

  /** The clock is the 16-bit one unwrapped, and the operation does not set it back. */
  ghost predicate MovesOn(h: History, op: Op) {
    h.stream.hasSeq ==> h.pos <= Apply(h, op).pos && (h.pos - h.stream.next) % TWO16 == 0
  }

  /** The playout clock never goes back while a baseline is held, and it is the 16-bit one unwrapped. */
  lemma {:induction false} ClockNeverRewinds(ops: seq<Op>, op: Op)
    ensures MovesOn(Run(ops), op)
  {
    RunKeeps(ops);
    GoodNeverRewinds(Run(ops), op);
  }

  lemma {:induction false} GoodNeverRewinds(h: History, op: Op)
    requires Good(h)
    ensures MovesOn(h, op)
  {
    ApplyKeeps(h, op);
  }

  // ---- the head is played soon ----

  /** Within `n` slots without a push the head is decoded normally, concealment and its own FEC before it. */
  ghost predicate HeadPlaysWithin(s: Stream, n: nat)
    requires s.queue != []
    decreases n
  {
    n > 0 &&
    var r := Decode(s);
    r.call.Some? &&
    (r.call.value == Normal(s.queue[0]) ||
     (r.call.value in {Plc, Fec(s.queue[0])} && r.stream.queue == s.queue && HeadPlaysWithin(r.stream, n - 1)))
  }

  function SlotsNeeded(s: Stream): int
    requires s.queue != []
  {
    var gap := Ahead(s.next, s.queue[0].seqNo);
    if gap == 0 || gap >= RESYNC_GAP then 1
    else if gap == 1 then 2
    else PLC_MAX_FRAMES - s.empty + 2
  }

  /** One slot on the way to the head: nothing is taken out, and one slot fewer is needed. */
  lemma {:induction false} OneSlotNearer(s: Stream)
    requires VoiceJitter.Valid(s) && s.primed && s.queue != []
    requires Decode(s).call != Some(Normal(s.queue[0]))
    ensures var r := Decode(s);
      && r.call.Some? && r.call.value in {Plc, Fec(s.queue[0])}
      && r.stream.queue == s.queue && r.stream.primed
      && SlotsNeeded(r.stream) + 1 <= SlotsNeeded(s)
  {
    var gap := Ahead(s.next, s.queue[0].seqNo);
    assert Ahead(Succ16(s.next), s.queue[0].seqNo) == gap - 1;
  }

  lemma {:induction false} HeadPlaysInTime(s: Stream, n: nat)
    requires VoiceJitter.Valid(s) && s.primed && s.queue != []
    requires n >= SlotsNeeded(s)
    ensures HeadPlaysWithin(s, n)
    decreases n
  {
    if Decode(s).call == Some(Normal(s.queue[0])) {
      assert n > 0;
    } else {
      OneSlotNearer(s);
      DecodeKeeps(s);
      HeadPlaysInTime(Decode(s).stream, n - 1);
    }
  }

  /** From every primed state with something queued the head is played within PLC_MAX_FRAMES + 2 slots. */
  lemma {:induction false} HeadPlaysSoon(ops: seq<Op>)
    ensures var s := Run(ops).stream; s.primed && s.queue != [] ==> HeadPlaysWithin(s, PLC_MAX_FRAMES + 2)
  {
    EveryQueueIsSound(ops);
    SoundHeadPlaysSoon(Run(ops).stream);
  }

  lemma {:induction false} SoundHeadPlaysSoon(s: Stream)
    requires VoiceJitter.Valid(s)
    ensures s.primed && s.queue != [] ==> HeadPlaysWithin(s, PLC_MAX_FRAMES + 2)
  {
    if s.primed && s.queue != [] { HeadPlaysInTime(s, PLC_MAX_FRAMES + 2); }
  }

  // ---- no slot is concealed that could be decoded ----

  /** What a primed stream plays in the slot owed, by what is queued for it, wherever in the queue it is. */
  ghost predicate SlotWellFilled(s: Stream, call: Option<Call>) {
    var owed, after := s.next, Succ16(s.next);
    && (Queued(s.queue, owed) ==> call.Some? && call.value.Normal? && call.value.packet.seqNo == owed)
    && (!Queued(s.queue, owed) && Queued(s.queue, after) ==>
          call.Some? && call.value.Fec? && call.value.packet.seqNo == after)
    && (!Queued(s.queue, owed) && !Queued(s.queue, after) ==>
          if s.queue != [] && (s.empty == PLC_MAX_FRAMES || forall p :: p in s.queue ==> Ahead(owed, p.seqNo) >= RESYNC_GAP)
          then call == Some(Normal(s.queue[0]))
          else call == if s.empty < PLC_MAX_FRAMES then Some(Plc) else None)
  }

  lemma {:induction false} QueuedNear(queue: seq<Packet>, next: Seq16, d: nat)
    requires InWindow(queue, next) && d <= 1
    requires d == 1 ==> !Queued(queue, next)
    ensures var q := if d == 0 then next else Succ16(next);
      && Ahead(next, q) == d
      && (Queued(queue, q) <==> queue != [] && Ahead(next, queue[0].seqNo) == d)
      && (Queued(queue, q) ==> queue[0].seqNo == q)
  {
    var q := if d == 0 then next else Succ16(next);
    if Queued(queue, q) {
      var i :| 0 <= i < |queue| && queue[i].seqNo == q;
      assert i == 0 || Ahead(next, queue[0].seqNo) < Ahead(next, queue[i].seqNo);
    }
  }

  lemma {:induction false} FarHead(queue: seq<Packet>, next: Seq16)
    requires InWindow(queue, next) && queue != []
    ensures (forall p :: p in queue ==> Ahead(next, p.seqNo) >= RESYNC_GAP) <==> Ahead(next, queue[0].seqNo) >= RESYNC_GAP
  {
    assert queue[0] in queue;
    forall p | p in queue
      ensures Ahead(next, p.seqNo) >= Ahead(next, queue[0].seqNo)
    {
      var i :| 0 <= i < |queue| && queue[i] == p;
      assert i == 0 || Ahead(next, queue[0].seqNo) < Ahead(next, queue[i].seqNo);
    }
  }

  lemma {:induction false} SlotIsWellFilled(s: Stream)
    requires VoiceJitter.Valid(s) && s.primed
    ensures SlotWellFilled(s, Decode(s).call)
  {
    QueuedNear(s.queue, s.next, 0);
    if !Queued(s.queue, s.next) {
      QueuedNear(s.queue, s.next, 1);
      if s.queue != [] { FarHead(s.queue, s.next); }
    }
  }

  /**
   In every reachable primed stream the slot owed is decoded normally if its packet is
   queued at all, recovered by FEC if only the next packet is, and concealed only when
   neither is; then the clock catches up, or the stream stops, exactly at the limits.
   */
  lemma {:induction false} EverySlotIsWellFilled(ops: seq<Op>)
    ensures var s := Run(ops).stream; s.primed ==> SlotWellFilled(s, Decode(s).call)
  {
    EveryQueueIsSound(ops);
    if Run(ops).stream.primed { SlotIsWellFilled(Run(ops).stream); }
  }

  // ---- starting and stopping ----

  /** No packet queued for the stream is nearer to the slot owed. */
  ghost predicate Nearest(s: Stream, p: Packet) {
    p in s.queue && forall q :: q in s.queue ==> Ahead(s.next, p.seqNo) <= Ahead(s.next, q.seqNo)
  }

  /** What a slot of a stream that is not playing does. */
  ghost predicate StartsWhenReady(s: Stream, r: Slot) {
    if |s.queue| < JITTER_PRE_BUFFER then r == Slot(s, None)
    else
      && r.call.Some? && r.call.value.Normal? && Nearest(s, r.call.value.packet)
      && r.stream.primed && r.stream.hasSeq && r.stream.empty == 0
      && r.stream.next == Succ16(r.call.value.packet.seqNo)
  }

  lemma {:induction false} HeadIsNearest(queue: seq<Packet>, next: Seq16, q: Packet)
    requires InWindow(queue, next) && q in queue
    ensures Ahead(next, queue[0].seqNo) <= Ahead(next, q.seqNo)
  {
    var i :| 0 <= i < |queue| && queue[i] == q;
    assert i == 0 || Ahead(next, queue[0].seqNo) < Ahead(next, queue[i].seqNo);
  }

  lemma {:induction false} UnprimedStarts(s: Stream)
    requires VoiceJitter.Valid(s) && !s.primed
    ensures StartsWhenReady(s, Decode(s))
  {
    if |s.queue| >= JITTER_PRE_BUFFER {
      assert s.queue[0] in s.queue;
      forall q | q in s.queue
        ensures Ahead(s.next, s.queue[0].seqNo) <= Ahead(s.next, q.seqNo)
      {
        HeadIsNearest(s.queue, s.next, q);
      }
    }
  }

  /**
   After every run, a stream that is not playing makes no decoder call and does not change
   while fewer than JITTER_PRE_BUFFER packets are queued; with that many the next slot
   decodes the nearest of them, and the stream plays.
   */
  lemma {:induction false} EveryStreamStarts(ops: seq<Op>)
    ensures var s := Run(ops).stream; !s.primed ==> StartsWhenReady(s, Decode(s))
  {
    EveryQueueIsSound(ops);
    if !Run(ops).stream.primed { UnprimedStarts(Run(ops).stream); }
  }

  /** Playing goes on for exactly as long as there is something queued or concealment left. */
  ghost predicate StopsWhenSpent(s: Stream, r: Slot) {
    var spent := s.queue == [] && s.empty >= PLC_MAX_FRAMES;
    && (r.call.None? <==> spent)
    && (r.stream.primed <==> !spent) && (r.stream.hasSeq <==> !spent)
    && (spent ==> r.stream.queue == [])
  }

  lemma {:induction false} PrimedStops(s: Stream)
    requires VoiceJitter.Valid(s) && s.primed
    ensures StopsWhenSpent(s, Decode(s))
  {
  }

  /** What a push does to a stream without a baseline: whatever the number, the packet starts a new one. */
  ghost predicate StartsABaseline(s: Stream, p: Packet, r: Pushed) {
    r.accepted && r.evicted.None? && r.stream == s.(queue := [p], next := p.seqNo, hasSeq := true)
  }

  lemma {:induction false} AnyPacketStartsABaseline(s: Stream, p: Packet)
    requires VoiceJitter.Valid(s) && !s.hasSeq
    ensures StartsABaseline(s, p, Push(s, p))
  {
    assert [p][..0] + [p] + [] == [p];
  }

  /**
   After every run, a playing stream stops exactly when nothing is queued and its concealment
   is used up; it then has no baseline, and any packet at all is taken as a new one.
   */
  lemma {:induction false} EveryStreamStopsAndRestarts(ops: seq<Op>, p: Packet)
    ensures var s := Run(ops).stream;
      && (s.primed ==> StopsWhenSpent(s, Decode(s)))
      && (!s.hasSeq ==> StartsABaseline(s, p, Push(s, p)))
  {
    EveryQueueIsSound(ops);
    if Run(ops).stream.primed { PrimedStops(Run(ops).stream); }
    if !Run(ops).stream.hasSeq { AnyPacketStartsABaseline(Run(ops).stream, p); }
  }

  /** A push changes the clock, the counter and the playing of a stream with a baseline only by an eviction while it plays. */
  lemma {:induction false} PushLeavesTheClock(s: Stream, p: Packet)
    requires s.hasSeq
    ensures var r := Push(s, p);
      && r.stream.primed == s.primed && r.stream.hasSeq
      && (!r.evicted.Some? || !s.primed ==> r.stream.next == s.next && r.stream.empty == s.empty)
      && (r.stream.next != s.next ==> r.stream.empty == 0)
  {
  }
}
