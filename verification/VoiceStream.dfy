/**
 The jitter buffer of one talker as it is built: a queue searched from the back on a push,
 and a playout routine that updates the clock in place, stale-front discard included.
 */
module VoiceStream {
  import opened Basics
  import opened SequenceNumbers
  import opened VoiceJitter

  class UserStream {
    var packetQueue: seq<Packet>
    var consecutiveEmpty: nat
    var primed: bool
    var nextSeq: Seq16
    var hasSeq: bool

    ghost function Abs(): Stream
      reads this
    {
      Stream(packetQueue, hasSeq, primed, nextSeq, consecutiveEmpty)
    }

    constructor ()
      ensures Abs() == Fresh() && VoiceJitter.Valid(Abs())
    {
      packetQueue, consecutiveEmpty, primed, nextSeq, hasSeq := [], 0, false, 0, false;
    }

    /** Where a packet goes, searching from the back; none when it is queued already. */
    method InsertionIndex(q: Seq16) returns (at: Option<nat>)
      requires InWindow(packetQueue, nextSeq) && Ahead(nextSeq, q) >= 0
      ensures at.None? <==> Queued(packetQueue, q)
      ensures at.Some? ==> at.value <= |packetQueue|
      ensures at.Some? ==> forall i :: 0 <= i < at.value ==> Ahead(nextSeq, packetQueue[i].seqNo) < Ahead(nextSeq, q)
      ensures at.Some? ==> forall i :: at.value <= i < |packetQueue| ==> Ahead(nextSeq, q) < Ahead(nextSeq, packetQueue[i].seqNo)
    {
      var i := |packetQueue|;
      while i > 0
        invariant 0 <= i <= |packetQueue|
        invariant forall j :: i <= j < |packetQueue| ==> Ahead(nextSeq, q) < Ahead(nextSeq, packetQueue[j].seqNo)
      {
        var d := Ahead(packetQueue[i - 1].seqNo, q);
        if d == 0 { return None; }
        if d > 0 { break; }
        i := i - 1;
      }
      at := Some(i);
      assert i > 0 ==> Ahead(nextSeq, packetQueue[i - 1].seqNo) < Ahead(nextSeq, q);
      forall j | 0 <= j < |packetQueue|
        ensures packetQueue[j].seqNo != q
      {
        assert j < i - 1 ==> Ahead(nextSeq, packetQueue[j].seqNo) < Ahead(nextSeq, packetQueue[i - 1].seqNo);
      }
    }

    method PushPacket(seqNo: Seq16, data: seq<int>) returns (accepted: bool, evicted: Option<Packet>)
      requires VoiceJitter.Valid(Abs())
      modifies this
      ensures VoiceJitter.Valid(Abs())
      ensures Pushed(Abs(), accepted, evicted) == Push(old(Abs()), Packet(seqNo, data))
    {
      var p := Packet(seqNo, data);
      PushKeeps(Abs(), p);
      if !hasSeq {
        nextSeq := seqNo;
        hasSeq := true;
      }
      accepted, evicted := false, None;
      if Ahead(nextSeq, seqNo) < 0 { return; }
      var at := InsertionIndex(seqNo);
      if at.None? { return; }
      accepted := true;
      InsertAt(packetQueue, nextSeq, p, at.value);
      packetQueue := packetQueue[..at.value] + [p] + packetQueue[at.value..];
      if |packetQueue| > MAX_JITTER_PACKETS {
        evicted := Some(packetQueue[0]);
        packetQueue := packetQueue[1..];
        var front := packetQueue[0].seqNo;
        if primed && Ahead(nextSeq, front) > 0 {
          nextSeq := front;
          consecutiveEmpty := 0;
        }
      }
    }

    /** One playout slot: the decoder call it makes, if any. */
    method DecodeFrame() returns (call: Option<Call>)
      requires VoiceJitter.Valid(Abs())
      modifies this
      ensures VoiceJitter.Valid(Abs())
      ensures Slot(Abs(), call) == Decode(old(Abs()))
    {
      DecodeKeeps(Abs());
      if !primed {
        if |packetQueue| < JITTER_PRE_BUFFER { return None; }
        MoveWindow(packetQueue, nextSeq, packetQueue[0].seqNo);
        primed := true;
        nextSeq := packetQueue[0].seqNo;
      }
      if packetQueue == [] {
        consecutiveEmpty := consecutiveEmpty + 1;
        if consecutiveEmpty <= PLC_MAX_FRAMES {
          nextSeq := Succ16(nextSeq);
          return Some(Plc);
        }
        primed := false;
        hasSeq := false;
        return None;
      }
      NothingIsStale(Abs());
      call := PlayQueued();
    }

    /** From the stale-front discard on, whatever the queue holds. */
    method PlayQueued() returns (call: Option<Call>)
      modifies this
      ensures Slot(Abs(), call) == DiscardThenPlay(old(Abs()))
    {
      while packetQueue != [] && Ahead(nextSeq, packetQueue[0].seqNo) < 0
        invariant Abs() == old(Abs()).(queue := packetQueue)
        invariant DropStale(packetQueue, nextSeq) == DropStale(old(packetQueue), nextSeq)
        decreases |packetQueue|
      {
        packetQueue := packetQueue[1..];
      }
      if packetQueue == [] {
        consecutiveEmpty := consecutiveEmpty + 1;
        nextSeq := Succ16(nextSeq);
        return Some(Plc);
      }
      call := PlayFront();
    }

    method PlayFront() returns (call: Option<Call>)
      requires packetQueue != []
      modifies this
      ensures Slot(Abs(), call) == Play(old(Abs()))
    {
      var front := packetQueue[0];
      var gap := Ahead(nextSeq, front.seqNo);
      if gap >= RESYNC_GAP {
        nextSeq := front.seqNo;
        gap := 0;
      }
      if gap == 0 {
        nextSeq := Succ16(front.seqNo);
        packetQueue := packetQueue[1..];
        consecutiveEmpty := 0;
        return Some(Normal(front));
      }
      if gap == 1 {
        nextSeq := Succ16(nextSeq);
        consecutiveEmpty := 0;
        return Some(Fec(front));
      }
      consecutiveEmpty := consecutiveEmpty + 1;
      if consecutiveEmpty > PLC_MAX_FRAMES {
        nextSeq := front.seqNo;
        consecutiveEmpty := 0;
        nextSeq := Succ16(front.seqNo);
        packetQueue := packetQueue[1..];
        return Some(Normal(front));
      }
      nextSeq := Succ16(nextSeq);
      return Some(Plc);
    }
  }
}
