/**
 The voice jitter buffer of one talker: packets with 16-bit wrapping numbers are queued in
 order and played out slot by slot, with loss concealment and Opus in-band FEC (section
 2.1.7 of RFC 6716). These functions say what a push and a playout slot do; the branch that
 discards a stale front is not here, because no reachable state has one.
 */
module VoiceJitter {
  import opened Basics
  import opened SequenceNumbers

  datatype Packet = Packet(seqNo: Seq16, data: seq<int>)

  /** The one decoder call a slot makes. */
  datatype Call = Normal(packet: Packet) | Fec(packet: Packet) | Plc

  datatype Stream = Stream(
    queue: seq<Packet>,
    hasSeq: bool,
    primed: bool,
    next: Seq16,
    empty: nat)

  /** The limits of a mixer: packets queued, packets before playback starts, slots concealed in a row, gap given up. */
  datatype Limits = Limits(maxPackets: nat, preBuffer: nat, plcMax: nat, resyncGap: nat)

  /** The program's own are the witness. */
  type SaneLimits = l: Limits |
    1 <= l.preBuffer <= l.maxPackets && l.plcMax >= 1 && l.resyncGap >= 2
    witness Limits(10, 4, 10, 32)

  /** No value is given: everything here holds for any sane limits. */
  const LIMITS: SaneLimits

  const MAX_JITTER_PACKETS: nat := LIMITS.maxPackets
  const JITTER_PRE_BUFFER: nat := LIMITS.preBuffer
  const PLC_MAX_FRAMES: nat := LIMITS.plcMax
  const RESYNC_GAP: nat := LIMITS.resyncGap

  function Fresh(): Stream {
    Stream([], false, false, 0, 0)
  }

  // ---- a push ----

  datatype Pushed = Pushed(stream: Stream, accepted: bool, evicted: Option<Packet>)

  predicate Queued(queue: seq<Packet>, q: Seq16) {
    exists i :: 0 <= i < |queue| && queue[i].seqNo == q
  }

  /** How many queued packets come before `q`. */
  function Position(queue: seq<Packet>, next: Seq16, q: Seq16): (n: nat)
    ensures n <= |queue|
    ensures forall i :: 0 <= i < n ==> Ahead(next, queue[i].seqNo) < Ahead(next, q)
    ensures n < |queue| ==> Ahead(next, queue[n].seqNo) >= Ahead(next, q)
    decreases |queue|
  {
    if queue == [] || Ahead(next, queue[0].seqNo) >= Ahead(next, q) then 0
    else
      assert forall i :: 0 <= i < |queue[1..]| ==> queue[1..][i] == queue[i + 1];
      1 + Position(queue[1..], next, q)
  }

  function Insert(queue: seq<Packet>, next: Seq16, p: Packet): seq<Packet> {
    var n := Position(queue, next, p.seqNo);
    queue[..n] + [p] + queue[n..]
  }

  function Baseline(s: Stream, p: Packet): Stream {
    if s.hasSeq then s else s.(next := p.seqNo, hasSeq := true)
  }

  function Push(s: Stream, p: Packet): Pushed {
    var s1 := Baseline(s, p);
    if Ahead(s1.next, p.seqNo) < 0 || Queued(s1.queue, p.seqNo) then Pushed(s1, false, None)
    else Trim(s1.(queue := Insert(s1.queue, s1.next, p)))
  }

  /** Keeps the newest window; a primed stream jumps to what is kept. */
  function Trim(s: Stream): Pushed {
    if |s.queue| <= MAX_JITTER_PACKETS then Pushed(s, true, None)
    else
      var rest := s.queue[1..];
      var t := if s.primed && Ahead(s.next, rest[0].seqNo) > 0
               then s.(queue := rest, next := rest[0].seqNo, empty := 0)
               else s.(queue := rest);
      Pushed(t, true, Some(s.queue[0]))
  }

  // ---- a playout slot ----

  datatype Slot = Slot(stream: Stream, call: Option<Call>)

  function Decode(s: Stream): Slot {
    if !s.primed then
      if |s.queue| < JITTER_PRE_BUFFER then Slot(s, None)
      else Play(s.(primed := true, next := s.queue[0].seqNo))
    else Play(s)
  }

  function Play(s: Stream): Slot {
    if s.queue == [] then Underrun(s)
    else
      var gap := Ahead(s.next, s.queue[0].seqNo);
      if gap >= RESYNC_GAP || gap == 0 then PlayHead(s)
      else if gap == 1 then Slot(s.(next := Succ16(s.next), empty := 0), Some(Fec(s.queue[0])))
      else if s.empty + 1 > PLC_MAX_FRAMES then PlayHead(s)
      else Slot(s.(next := Succ16(s.next), empty := s.empty + 1), Some(Plc))
  }

  function Underrun(s: Stream): Slot {
    if s.empty + 1 <= PLC_MAX_FRAMES
    then Slot(s.(empty := s.empty + 1, next := Succ16(s.next)), Some(Plc))
    else Slot(s.(empty := s.empty + 1, primed := false, hasSeq := false), None)
  }

  function PlayHead(s: Stream): Slot
    requires s.queue != []
  {
    var p := s.queue[0];
    Slot(s.(queue := s.queue[1..], next := Succ16(p.seqNo), empty := 0), Some(Normal(p)))
  }

  /** The queue without the packets behind the slot owed. */
  function DropStale(queue: seq<Packet>, next: Seq16): seq<Packet>
    decreases |queue|
  {
    if queue != [] && Ahead(next, queue[0].seqNo) < 0 then DropStale(queue[1..], next) else queue
  }

  /** A slot of a non-empty queue as the code plays it: discard a stale front first, conceal if nothing is left. */
  function DiscardThenPlay(s: Stream): Slot {
    var s1 := s.(queue := DropStale(s.queue, s.next));
    if s1.queue == [] then Slot(s1.(empty := s1.empty + 1, next := Succ16(s1.next)), Some(Plc))
    else Play(s1)
  }

  // ---- the invariant ----

  /** Every queued packet is 0 .. 2^15 - 1 ahead of the slot owed, in strictly ascending order. */
  ghost predicate InWindow(queue: seq<Packet>, next: Seq16) {
    && (forall i :: 0 <= i < |queue| ==> 0 <= Ahead(next, queue[i].seqNo))
    && (forall i, j :: 0 <= i < j < |queue| ==> Ahead(next, queue[i].seqNo) < Ahead(next, queue[j].seqNo))
  }

  ghost predicate Valid(s: Stream) {
    && InWindow(s.queue, s.next)
    && |s.queue| <= MAX_JITTER_PACKETS
    && (!s.hasSeq ==> s.queue == [] && !s.primed)
    && (s.primed ==> s.empty <= PLC_MAX_FRAMES)
  }

  /** The packet owed to this slot is at the head. */
  ghost predicate HeadOwed(s: Stream) {
    s.queue != [] && s.queue[0].seqNo == s.next
  }

  /** No reachable queue has a stale front: the discard and the concealment after it never happen. */
  lemma {:induction false} NothingIsStale(s: Stream)
    requires InWindow(s.queue, s.next) && s.queue != []
    ensures DropStale(s.queue, s.next) == s.queue
    ensures DiscardThenPlay(s) == Play(s)
  {
  }

  // ---- insertion ----

  /** There is one place where a packet keeps the order. */
  lemma {:induction false} InsertAt(queue: seq<Packet>, next: Seq16, p: Packet, n: nat)
    requires n <= |queue|
    requires forall i :: 0 <= i < n ==> Ahead(next, queue[i].seqNo) < Ahead(next, p.seqNo)
    requires forall i :: n <= i < |queue| ==> Ahead(next, p.seqNo) < Ahead(next, queue[i].seqNo)
    ensures Insert(queue, next, p) == queue[..n] + [p] + queue[n..]
  {
    var m := Position(queue, next, p.seqNo);
    assert m < |queue| ==> Ahead(next, queue[m].seqNo) >= Ahead(next, p.seqNo);
    assert n < |queue| ==> Ahead(next, queue[n].seqNo) > Ahead(next, p.seqNo);
  }

  lemma {:induction false} InsertedInWindow(queue: seq<Packet>, next: Seq16, p: Packet, n: nat)
    requires InWindow(queue, next) && Ahead(next, p.seqNo) >= 0 && n <= |queue|
    requires forall i :: 0 <= i < n ==> Ahead(next, queue[i].seqNo) < Ahead(next, p.seqNo)
    requires n < |queue| ==> Ahead(next, p.seqNo) < Ahead(next, queue[n].seqNo)
    ensures InWindow(queue[..n] + [p] + queue[n..], next)
  {
    var r := queue[..n] + [p] + queue[n..];
    forall i, j | 0 <= i < j < |r|
      ensures Ahead(next, r[i].seqNo) < Ahead(next, r[j].seqNo)
    {
      assert r[i] == if i < n then queue[i] else if i == n then p else queue[i - 1];
      assert r[j] == if j < n then queue[j] else if j == n then p else queue[j - 1];
    }
  }

  lemma {:induction false} InsertFacts(queue: seq<Packet>, next: Seq16, p: Packet)
    requires InWindow(queue, next) && Ahead(next, p.seqNo) >= 0 && !Queued(queue, p.seqNo)
    ensures var r := Insert(queue, next, p);
      && InWindow(r, next)
      && |r| == |queue| + 1
      && r[0] == (if queue == [] || Ahead(next, p.seqNo) < Ahead(next, queue[0].seqNo) then p else queue[0])
  {
    var n := Position(queue, next, p.seqNo);
    assert n < |queue| ==> queue[n].seqNo != p.seqNo;
    InsertedInWindow(queue, next, p, n);
  }

  lemma {:induction false} InsertContents(queue: seq<Packet>, next: Seq16, p: Packet)
    ensures multiset(Insert(queue, next, p)) == multiset(queue) + multiset{p}
  {
    var n := Position(queue, next, p.seqNo);
    assert queue == queue[..n] + queue[n..];
  }

  // ---- moving the slot owed ----

  /** Moving up to, and not past, the first packet keeps the window. */
  lemma {:induction false} MoveWindow(queue: seq<Packet>, next: Seq16, next': Seq16)
    requires InWindow(queue, next)
    requires 0 <= Ahead(next, next')
    requires queue != [] ==> Ahead(next, next') <= Ahead(next, queue[0].seqNo)
    ensures InWindow(queue, next')
    ensures forall i :: 0 <= i < |queue| ==>
      Ahead(next', queue[i].seqNo) == Ahead(next, queue[i].seqNo) - Ahead(next, next')
  {
    forall i | 0 <= i < |queue|
      ensures Ahead(next', queue[i].seqNo) == Ahead(next, queue[i].seqNo) - Ahead(next, next')
    {
      assert i == 0 || Ahead(next, queue[0].seqNo) < Ahead(next, queue[i].seqNo);
    }
  }

  lemma {:induction false} DropHead(queue: seq<Packet>, next: Seq16)
    requires InWindow(queue, next) && queue != []
    ensures InWindow(queue[1..], next)
    ensures |queue| > 1 ==> Ahead(next, queue[0].seqNo) < Ahead(next, queue[1..][0].seqNo)
  {
    assert forall i :: 0 <= i < |queue[1..]| ==> queue[1..][i] == queue[i + 1];
  }

  // ---- each operation keeps the invariant ----

  /** Playing the head leaves the rest ahead of the next slot. */
  lemma {:induction false} PlayHeadKeeps(s: Stream)
    requires Valid(s) && s.queue != []
    ensures Valid(PlayHead(s).stream)
  {
    DropHead(s.queue, s.next);
    var rest := s.queue[1..];
    MoveWindow(s.queue, s.next, s.queue[0].seqNo);
    DropHead(s.queue, s.queue[0].seqNo);
    MoveWindow(rest, s.queue[0].seqNo, Succ16(s.queue[0].seqNo));
  }

  lemma {:induction false} PlayKeeps(s: Stream)
    requires Valid(s) && s.hasSeq
    ensures Valid(Play(s).stream)
  {
    if s.queue != [] {
      var gap := Ahead(s.next, s.queue[0].seqNo);
      PlayHeadKeeps(s);
      if 0 < gap < RESYNC_GAP { MoveWindow(s.queue, s.next, Succ16(s.next)); }
    }
  }

  lemma {:induction false} DecodeKeeps(s: Stream)
    requires Valid(s)
    ensures Valid(Decode(s).stream)
  {
    if !s.primed && |s.queue| >= JITTER_PRE_BUFFER {
      MoveWindow(s.queue, s.next, s.queue[0].seqNo);
      var t := s.(primed := true, next := s.queue[0].seqNo);
      PlayHeadKeeps(t.(empty := 0));
    } else if s.primed {
      PlayKeeps(s);
    }
  }

  lemma {:induction false} PushKeeps(s: Stream, p: Packet)
    requires Valid(s)
    ensures Valid(Push(s, p).stream)
  {
    var s1 := Baseline(s, p);
    if !(Ahead(s1.next, p.seqNo) < 0 || Queued(s1.queue, p.seqNo)) {
      InsertFacts(s1.queue, s1.next, p);
      var q := Insert(s1.queue, s1.next, p);
      DropHead(q, s1.next);
      if |q| > MAX_JITTER_PACKETS {
        MoveWindow(q[1..], s1.next, q[1..][0].seqNo);
      }
    }
  }

  /** After an eviction on a primed stream the head is the packet owed. */
  lemma {:induction false} EvictionOwesTheHead(s: Stream, p: Packet)
    requires Valid(s)
    ensures var r := Push(s, p); r.evicted.Some? && r.stream.primed ==> HeadOwed(r.stream)
  {
    var s1 := Baseline(s, p);
    if !(Ahead(s1.next, p.seqNo) < 0 || Queued(s1.queue, p.seqNo)) {
      InsertFacts(s1.queue, s1.next, p);
      DropHead(Insert(s1.queue, s1.next, p), s1.next);
    }
  }

  /**
   A packet is turned away exactly when its slot is past or it is queued already; a full
   queue then gives up its oldest packet, the new one included, and no other.
   */
  lemma {:induction false} PushKeepsTheNewest(s: Stream, p: Packet)
    requires Valid(s)
    ensures var r := Push(s, p); var from := if s.hasSeq then s.next else p.seqNo;
      && (r.accepted <==> !(s.hasSeq && (Ahead(s.next, p.seqNo) < 0 || Queued(s.queue, p.seqNo))))
      && (r.evicted.Some? <==> r.accepted && |s.queue| == MAX_JITTER_PACKETS)
      && (r.evicted.Some? ==> forall x :: x in r.stream.queue ==> Ahead(from, r.evicted.value.seqNo) < Ahead(from, x.seqNo))
  {
    var s1 := Baseline(s, p);
    if !(Ahead(s1.next, p.seqNo) < 0 || Queued(s1.queue, p.seqNo)) {
      InsertFacts(s1.queue, s1.next, p);
    }
  }

  // ---- nothing is lost track of ----

  /** A push puts at most its own packet in, and takes at most the evicted one out. */
  lemma {:induction false} PushBalance(s: Stream, p: Packet)
    ensures var r := Push(s, p);
      multiset(r.stream.queue) + (if r.evicted.Some? then multiset{r.evicted.value} else multiset{}) ==
      multiset(s.queue) + (if r.accepted then multiset{p} else multiset{})
  {
    var s1 := Baseline(s, p);
    InsertContents(s1.queue, s1.next, p);
    var q := Insert(s1.queue, s1.next, p);
    assert q == [q[0]] + q[1..];
  }

  /** What a slot took out of the queue: the packet it decoded normally. */
  ghost predicate Balanced(queue: seq<Packet>, r: Slot) {
    multiset(queue) == multiset(r.stream.queue) +
      if r.call.Some? && r.call.value.Normal? then multiset{r.call.value.packet} else multiset{}
  }

  lemma {:induction false} PlayBalance(s: Stream)
    ensures Balanced(s.queue, Play(s))
  {
    if s.queue != [] {
      assert s.queue == [s.queue[0]] + s.queue[1..];
      assert Balanced(s.queue, PlayHead(s));
    }
  }

  /** A slot takes out exactly the packet it decodes normally. */
  lemma {:induction false} DecodeBalance(s: Stream)
    ensures Balanced(s.queue, Decode(s))
  {
    PlayBalance(s);
    if !s.primed && |s.queue| >= JITTER_PRE_BUFFER { PlayBalance(s.(primed := true, next := s.queue[0].seqNo)); }
  }
}
