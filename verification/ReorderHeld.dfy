/**
 Facts about the held frames of `FrameReorder`: dropping frames keeps order, totals and
 contents in check, ordered insertion adds one frame, and re-ordering an ordered sequence
 changes nothing.
 */
module ReorderHeld {
  import opened SequenceNumbers
  import opened FrameReorder

  ghost predicate Ordered(held: seq<Held>, base: Seq32) {
    forall i, j :: 0 <= i < j < |held| ==>
      Distance(held[i].frame.seqNo, base) < Distance(held[j].frame.seqNo, base)
  }

  /** `a` is what is left of `b` after dropping some frames. */
  ghost predicate Left(a: seq<Held>, b: seq<Held>)
    decreases |b|
  {
    a == [] || (b != [] && ((a[0] == b[0] && Left(a[1..], b[1..])) || Left(a, b[1..])))
  }

  lemma {:induction false} LeftFacts(a: seq<Held>, b: seq<Held>, base: Seq32)
    requires Left(a, b)
    ensures |a| <= |b| && Bytes(a) <= Bytes(b)
    ensures forall h :: h in a ==> h in b
    ensures Ordered(b, base) ==> Ordered(a, base)
    decreases |b|
  {
    if a == [] {
    } else {
      if a[0] == b[0] && Left(a[1..], b[1..]) {
        LeftFacts(a[1..], b[1..], base);
        assert forall h :: h in a ==> h == a[0] || h in a[1..];
        if Ordered(b, base) {
          assert Ordered(b[1..], base);
          forall j | 0 < j < |a|
            ensures Distance(a[0].frame.seqNo, base) < Distance(a[j].frame.seqNo, base)
          {
            assert a[j] == a[1..][j - 1];
            assert a[j] in b[1..];
          }
          forall i, j | 0 <= i < j < |a|
            ensures Distance(a[i].frame.seqNo, base) < Distance(a[j].frame.seqNo, base)
          {
            if i > 0 { assert a[i] == a[1..][i - 1] && a[j] == a[1..][j - 1]; }
          }
        }
      } else {
        LeftFacts(a, b[1..], base);
      }
    }
  }

  lemma {:induction false} LeftSelf(a: seq<Held>)
    ensures Left(a, a)
    decreases |a|
  {
    if a == [] {
    } else {
      LeftSelf(a[1..]);
    }
  }

  lemma {:induction false} LeftPrefix(a: seq<Held>, b: seq<Held>, n: nat)
    requires n <= |b| && Left(a, b[..n])
    ensures Left(a, b)
    decreases |b|
  {
    if a == [] {
    } else {
      assert b[..n][1..] == b[1..][..n - 1];
      if a[0] == b[0] && Left(a[1..], b[..n][1..]) {
        LeftPrefix(a[1..], b[1..], n - 1);
      } else {
        LeftPrefix(a, b[1..], n - 1);
      }
    }
  }

  lemma {:induction false} KeepNewerFacts(held: seq<Held>, q: Seq32)
    ensures Left(KeepNewer(held, q), held)
    ensures forall h :: h in KeepNewer(held, q) <==> h in held && Newer(h.frame.seqNo, q)
    decreases |held|
  {
    if held == [] {
    } else {
      KeepNewerFacts(held[1..], q);
      assert held == [held[0]] + held[1..];
    }
  }

  lemma {:induction false} KeepFreshFacts(held: seq<Held>, now: int, hold: int)
    ensures Left(KeepFresh(held, now, hold), held)
    ensures forall h :: h in KeepFresh(held, now, hold) <==> h in held && now - h.arrived < hold
    ensures (forall h :: h in held ==> now - h.arrived < hold) ==> KeepFresh(held, now, hold) == held
    decreases |held|
  {
    if held == [] {
    } else {
      KeepFreshFacts(held[1..], now, hold);
      assert held == [held[0]] + held[1..];
    }
  }

  lemma {:induction false} WithoutFacts(held: seq<Held>, q: Seq32)
    ensures Left(Without(held, q), held)
    ensures forall h :: h in held && h.frame.seqNo != q ==> h in Without(held, q)
    decreases |held|
  {
    if held == [] {
    } else {
      LeftSelf(held[1..]);
      WithoutFacts(held[1..], q);
      assert held == [held[0]] + held[1..];
    }
  }

  /** What is kept is the near end (anchored) or the far end, and one frame more would not fit. */
  lemma {:induction false} BoundIsMaximal(c: Config, held: seq<Held>, anchored: bool)
    ensures var kept := Bound(c, held, anchored); var n := |held| - |kept|;
      && n >= 0
      && kept == (if anchored then held[..|kept|] else held[n..])
      && (n > 0 ==> OverBounds(c, if anchored then held[..|kept| + 1] else held[n - 1..]))
    decreases |held|
  {
    if OverBounds(c, held) && held != [] {
      var m := |held| - 1;
      if anchored {
        BoundIsMaximal(c, held[..m], true);
        var k := |Bound(c, held, true)|;
        assert held[..m][..k] == held[..k];
        if k < m { assert held[..m][..k + 1] == held[..k + 1]; } else { assert held[..k + 1] == held; }
      } else {
        BoundIsMaximal(c, held[1..], false);
        var n := |held| - |Bound(c, held, false)|;
        assert held[1..][n - 1..] == held[n..];
        if n > 1 { assert held[1..][n - 2..] == held[n - 1..]; } else { assert held[0..] == held; }
      }
    } else {
      assert held[..|held|] == held && held[0..] == held;
    }
  }

  lemma {:induction false} BoundFacts(c: Config, held: seq<Held>, anchored: bool)
    ensures Left(Bound(c, held, anchored), held)
    ensures !OverBounds(c, Bound(c, held, anchored))
    ensures !OverBounds(c, held) ==> Bound(c, held, anchored) == held
    decreases |held|
  {
    if !OverBounds(c, held) || held == [] {
      LeftSelf(held);
    } else if anchored {
      BoundFacts(c, held[..|held| - 1], anchored);
      LeftPrefix(Bound(c, held, anchored), held, |held| - 1);
    } else {
      BoundFacts(c, held[1..], anchored);
    }
  }

  /** How many held frames lie closer to `base` than `d`. */
  ghost function Slot(held: seq<Held>, base: Seq32, d: int): (n: nat)
    ensures n <= |held|
    ensures forall i :: 0 <= i < n ==> Distance(held[i].frame.seqNo, base) < d
    ensures n < |held| ==> Distance(held[n].frame.seqNo, base) >= d
    decreases |held|
  {
    if held == [] || Distance(held[0].frame.seqNo, base) >= d then 0
    else
      assert forall i :: 0 <= i < |held[1..]| ==> held[1..][i] == held[i + 1];
      1 + Slot(held[1..], base, d)
  }

  /** Where ordered insertion puts a frame. */
  lemma {:induction false} PlaceAt(held: seq<Held>, base: Seq32, h: Held, n: nat)
    requires n <= |held|
    requires forall i :: 0 <= i < n ==> Distance(held[i].frame.seqNo, base) < Distance(h.frame.seqNo, base)
    requires n < |held| ==> Distance(h.frame.seqNo, base) < Distance(held[n].frame.seqNo, base)
    ensures Place(held, base, h) == held[..n] + [h] + held[n..]
    decreases |held|
  {
    if n > 0 {
      var rest := held[1..];
      assert forall i :: 0 <= i < |rest| ==> rest[i] == held[i + 1];
      PlaceAt(rest, base, h, n - 1);
      assert held[..n] == [held[0]] + rest[..n - 1] && held[n..] == rest[n - 1..];
    } else if held != [] {
      assert held[..0] == [] && held[0..] == held;
    }
  }

  /** Insertion where no frame of that number is held. */
  lemma {:induction false} PlaceFacts(held: seq<Held>, base: Seq32, h: Held)
    requires Ordered(held, base)
    requires !Holds(held, h.frame.seqNo)
    ensures Ordered(Place(held, base, h), base)
    ensures |Place(held, base, h)| == |held| + 1
    ensures Bytes(Place(held, base, h)) == Bytes(held) + |h.frame.data|
    ensures forall x :: x in Place(held, base, h) <==> x == h || x in held
  {
    var d := Distance(h.frame.seqNo, base);
    var n := Slot(held, base, d);
    if n < |held| {
      assert held[n].frame.seqNo != h.frame.seqNo;
    }
    PlaceAt(held, base, h, n);
    InsertBytes(held, h, n);
    assert held == held[..n] + held[n..];
    InsertOrdered(held, base, h, n);
  }

  lemma {:induction false} InsertOrdered(held: seq<Held>, base: Seq32, h: Held, n: nat)
    requires Ordered(held, base) && n <= |held|
    requires forall i :: 0 <= i < n ==> Distance(held[i].frame.seqNo, base) < Distance(h.frame.seqNo, base)
    requires n < |held| ==> Distance(h.frame.seqNo, base) < Distance(held[n].frame.seqNo, base)
    ensures Ordered(held[..n] + [h] + held[n..], base)
  {
    var r := held[..n] + [h] + held[n..];
    forall i, j | 0 <= i < j < |r|
      ensures Distance(r[i].frame.seqNo, base) < Distance(r[j].frame.seqNo, base)
    {
      assert r[i] == if i < n then held[i] else if i == n then h else held[i - 1];
      assert r[j] == if j < n then held[j] else if j == n then h else held[j - 1];
    }
  }

  lemma {:induction false} InsertBytes(held: seq<Held>, h: Held, n: nat)
    requires n <= |held|
    ensures Bytes(held[..n] + [h] + held[n..]) == Bytes(held) + |h.frame.data|
  {
    var r := held[..n] + [h] + held[n..];
    BytesSplit(r, n + 1);
    assert r[..n + 1] == held[..n] + [h] && r[n + 1..] == held[n..];
    BytesAppend(held[..n], h);
    BytesSplit(held, n);
  }

  /** Re-ordering frames that are already in order is the identity. */
  lemma {:induction false} RebaseOrdered(held: seq<Held>, base: Seq32)
    requires Ordered(held, base)
    ensures Rebase(held, base) == held
    decreases |held|
  {
    if held == [] {
    } else {
      var front := held[..|held| - 1];
      RebaseOrdered(front, base);
      PlaceAt(front, base, held[|held| - 1], |front|);
      assert held == front + [held[|held| - 1]] + [];
    }
  }

  /** Re-ordering always orders, and keeps frames of distinct numbers exactly. */
  lemma {:induction false} RebaseFacts(held: seq<Held>, base: Seq32)
    requires forall i, j :: 0 <= i < j < |held| ==> held[i].frame.seqNo != held[j].frame.seqNo
    ensures Ordered(Rebase(held, base), base)
    ensures |Rebase(held, base)| == |held|
    ensures Bytes(Rebase(held, base)) == Bytes(held)
    ensures forall x :: x in Rebase(held, base) <==> x in held
    decreases |held|
  {
    if held == [] {
    } else {
      var n := |held| - 1;
      var front, h := held[..n], held[n];
      RebaseFacts(front, base);
      var r := Rebase(front, base);
      assert !Holds(r, h.frame.seqNo) by {
        forall i | 0 <= i < |r|
          ensures r[i].frame.seqNo != h.frame.seqNo
        {
          assert r[i] in front;
        }
      }
      PlaceFacts(r, base, h);
      assert held == front + [h];
      BytesAppend(front, h);
    }
  }

  lemma {:induction false} BytesAppend(held: seq<Held>, h: Held)
    ensures Bytes(held + [h]) == Bytes(held) + |h.frame.data|
    decreases |held|
  {
    if held == [] {
    } else {
      assert (held + [h])[1..] == held[1..] + [h];
      BytesAppend(held[1..], h);
    }
  }

  lemma {:induction false} BytesSplit(held: seq<Held>, n: nat)
    requires n <= |held|
    ensures Bytes(held) == Bytes(held[..n]) + Bytes(held[n..])
    decreases |held|
  {
    if n > 0 {
      assert held[..n][1..] == held[1..][..n - 1];
      assert held[n..] == held[1..][n - 1..];
      BytesSplit(held[1..], n - 1);
    } else {
      assert held[..0] == [] && held[0..] == held;
    }
  }

  /** The scan finds an arrival time of a held frame, or 0 when there is none. */
  lemma {:induction false} EarliestIsHeld(held: seq<Held>, best: int)
    ensures EarliestFrom(held, best) == best || exists h :: h in held && h.arrived == EarliestFrom(held, best)
    ensures best == 0 && held != [] ==> exists h :: h in held && h.arrived == EarliestFrom(held, best)
    decreases |held|
  {
    if held == [] {
    } else {
      var next := if best == 0 || held[0].arrived < best then held[0].arrived else best;
      EarliestIsHeld(held[1..], next);
      assert held == [held[0]] + held[1..];
      if EarliestFrom(held[1..], next) == next && next != best {
        assert held[0] in held;
      }
      if best == 0 {
        assert held[0] in held;
      }
    }
  }

  /** With positive arrival times the scan finds their minimum. */
  lemma {:induction false} EarliestIsLeast(held: seq<Held>, best: int)
    requires best >= 0
    requires forall h :: h in held ==> h.arrived > 0
    ensures held != [] || best != 0 ==> EarliestFrom(held, best) > 0
    ensures best != 0 ==> EarliestFrom(held, best) <= best
    ensures forall h :: h in held ==> EarliestFrom(held, best) <= h.arrived
    decreases |held|
  {
    if held == [] {
    } else {
      assert held[0] in held;
      var next := if best == 0 || held[0].arrived < best then held[0].arrived else best;
      assert forall h :: h in held[1..] ==> h in held;
      EarliestIsLeast(held[1..], next);
      assert held == [held[0]] + held[1..];
    }
  }
}
