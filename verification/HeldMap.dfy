/**
 The ordered map that holds frames behind a gap, as the buffer uses it: nodes in key order,
 each key the distance of its frame from a base, searched, inserted into and erased from in
 place with a running byte count. Each operation is proved against the plain sequence of
 held frames of `FrameReorder`.
 */
module HeldMap {
  import opened SequenceNumbers
  import opened FrameReorder
  import opened ReorderHeld

  /**
   The map in iteration order: `keys` ascending and, beside it, `held`, the values. Every
   key is the distance of its frame from `base`, and `bytes` is the total size held.
   */
  ghost predicate Keyed(keys: seq<int>, held: seq<Held>, base: Seq32) {
    |keys| == |held| && forall i :: 0 <= i < |held| ==> keys[i] == Distance(held[i].frame.seqNo, base)
  }

  ghost predicate Sound(keys: seq<int>, held: seq<Held>, base: Seq32, bytes: nat) {
    Keyed(keys, held, base) && Ordered(held, base) && bytes == Bytes(held)
  }

  /** `lower_bound`: the first position whose key is at least `key`. */
  method LowerBound(keys: seq<int>, ghost held: seq<Held>, ghost base: Seq32, key: int) returns (i: nat)
    requires Keyed(keys, held, base) && Ordered(held, base)
    ensures i <= |keys|
    ensures forall j :: 0 <= j < i ==> keys[j] < key
    ensures forall j :: i <= j < |keys| ==> keys[j] >= key
  {
    i := 0;
    while i < |keys| && keys[i] < key
      invariant i <= |keys|
      invariant forall j :: 0 <= j < i ==> keys[j] < key
    {
      i := i + 1;
    }
    forall j | i <= j < |keys|
      ensures keys[j] >= key
    {
      assert i == j || Distance(held[i].frame.seqNo, base) < Distance(held[j].frame.seqNo, base);
    }
  }

  /** `find`: the position of frame `q`, or the one where it would go. */
  method Find(keys: seq<int>, held: seq<Held>, base: Seq32, q: Seq32) returns (found: bool, i: nat)
    requires Keyed(keys, held, base) && Ordered(held, base)
    ensures found <==> Holds(held, q)
    ensures found ==> i < |held| && held[i].frame.seqNo == q
    ensures i <= |held|
    ensures forall j :: 0 <= j < i ==> Distance(held[j].frame.seqNo, base) < Distance(q, base)
    ensures !found && i < |held| ==> Distance(q, base) < Distance(held[i].frame.seqNo, base)
  {
    var key := Distance(q, base);
    i := LowerBound(keys, held, base, key);
    found := i < |keys| && keys[i] == key;
    if !found {
      forall j | 0 <= j < |held|
        ensures held[j].frame.seqNo != q
      {
        assert j <= i || Distance(held[i].frame.seqNo, base) < Distance(held[j].frame.seqNo, base);
      }
    }
  }

  /** Inserts a node where `find` said it goes. */
  method InsertAt(keys: seq<int>, held: seq<Held>, base: Seq32, bytes: nat, h: Held, i: nat)
    returns (keys': seq<int>, held': seq<Held>, bytes': nat)
    requires Sound(keys, held, base, bytes) && i <= |held| && !Holds(held, h.frame.seqNo)
    requires forall j :: 0 <= j < i ==> Distance(held[j].frame.seqNo, base) < Distance(h.frame.seqNo, base)
    requires i < |held| ==> Distance(h.frame.seqNo, base) < Distance(held[i].frame.seqNo, base)
    ensures Sound(keys', held', base, bytes')
    ensures held' == Place(held, base, h)
  {
    bytes' := bytes + |h.frame.data|;
    keys' := keys[..i] + [Distance(h.frame.seqNo, base)] + keys[i..];
    held' := held[..i] + [h] + held[i..];
    InsertKeyed(keys, held, base, h, i);
    InsertOrdered(held, base, h, i);
    InsertBytes(held, h, i);
    PlaceAt(held, base, h, i);
  }

  /** `emplace` under the frame's key: nothing happens if the frame is held already. */
  method Insert(keys: seq<int>, held: seq<Held>, base: Seq32, bytes: nat, h: Held)
    returns (added: bool, keys': seq<int>, held': seq<Held>, bytes': nat)
    requires Sound(keys, held, base, bytes)
    ensures added <==> !Holds(held, h.frame.seqNo)
    ensures Sound(keys', held', base, bytes')
    ensures held' == if added then Place(held, base, h) else held
  {
    var found, i := Find(keys, held, base, h.frame.seqNo);
    added := !found;
    if found {
      keys', held', bytes' := keys, held, bytes;
    } else {
      keys', held', bytes' := InsertAt(keys, held, base, bytes, h, i);
    }
  }

  lemma {:induction false} InsertKeyed(keys: seq<int>, held: seq<Held>, base: Seq32, h: Held, i: nat)
    requires Keyed(keys, held, base) && i <= |held|
    ensures Keyed(keys[..i] + [Distance(h.frame.seqNo, base)] + keys[i..], held[..i] + [h] + held[i..], base)
  {
  }

  /** `rekey_held`: every node moved to a new map under its distance from the new base. */
  method Rekey(held: seq<Held>, base: Seq32) returns (keys': seq<int>, held': seq<Held>)
    requires forall i, j :: 0 <= i < j < |held| ==> held[i].frame.seqNo != held[j].frame.seqNo
    ensures Keyed(keys', held', base)
    ensures held' == Rebase(held, base)
  {
    keys', held' := [], [];
    var bytes := 0;
    for i := 0 to |held|
      invariant Sound(keys', held', base, bytes)
      invariant held' == Rebase(held[..i], base)
    {
      RebaseStep(held, base, i);
      var found, at := Find(keys', held', base, held[i].frame.seqNo);
      keys', held', bytes := InsertAt(keys', held', base, bytes, held[i], at);
    }
    assert held[..|held|] == held;
  }

  lemma {:induction false} RebaseStep(v: seq<Held>, base: Seq32, i: nat)
    requires i < |v|
    requires forall a, b :: 0 <= a < b < |v| ==> v[a].frame.seqNo != v[b].frame.seqNo
    ensures !Holds(Rebase(v[..i], base), v[i].frame.seqNo)
    ensures Rebase(v[..i + 1], base) == Place(Rebase(v[..i], base), base, v[i])
  {
    assert v[..i + 1][..i] == v[..i];
    RebaseFacts(v[..i], base);
    var r := Rebase(v[..i], base);
    forall j | 0 <= j < |r|
      ensures r[j].frame.seqNo != v[i].frame.seqNo
    {
      assert r[j] in v[..i];
    }
  }

  /** `earliest_arrival`: 0 stands for "none yet". */
  method EarliestArrival(held: seq<Held>) returns (earliest: int)
    ensures earliest == Earliest(held)
  {
    earliest := 0;
    assert held[0..] == held;
    for i := 0 to |held|
      invariant EarliestFrom(held[i..], earliest) == Earliest(held)
    {
      assert held[i..][1..] == held[i + 1..];
      if earliest == 0 || held[i].arrived < earliest {
        earliest := held[i].arrived;
      }
    }
  }

  // ---- erasing ----

  /** `erase` of one node. */
  method EraseAt(keys: seq<int>, held: seq<Held>, base: Seq32, bytes: nat, i: nat)
    returns (keys': seq<int>, held': seq<Held>, bytes': nat)
    requires Sound(keys, held, base, bytes) && i < |held|
    ensures Sound(keys', held', base, bytes')
    ensures held' == held[..i] + held[i + 1..]
  {
    BytesWithout(held, i);
    OrderedWithout(held, base, i);
    bytes' := bytes - |held[i].frame.data|;
    keys' := keys[..i] + keys[i + 1..];
    held' := held[..i] + held[i + 1..];
  }

  /** `find` and `erase`: the frame numbered `q` goes, if it is held. */
  method EraseFrame(keys: seq<int>, held: seq<Held>, base: Seq32, bytes: nat, q: Seq32)
    returns (found: bool, keys': seq<int>, held': seq<Held>, bytes': nat)
    requires Sound(keys, held, base, bytes)
    ensures found <==> Holds(held, q)
    ensures Sound(keys', held', base, bytes')
    ensures held' == if found then Without(held, q) else held
  {
    var i;
    found, i := Find(keys, held, base, q);
    if found {
      FirstOfItsNumber(held, base, i);
      WithoutAt(held, i);
      keys', held', bytes' := EraseAt(keys, held, base, bytes, i);
    } else {
      keys', held', bytes' := keys, held, bytes;
    }
  }

  lemma {:induction false} FirstOfItsNumber(held: seq<Held>, base: Seq32, n: nat)
    requires n < |held| && Ordered(held, base)
    ensures forall i :: 0 <= i < n ==> held[i].frame.seqNo != held[n].frame.seqNo
  {
    forall i | 0 <= i < n
      ensures held[i].frame.seqNo != held[n].frame.seqNo
    {
      assert Distance(held[i].frame.seqNo, base) < Distance(held[n].frame.seqNo, base);
    }
  }

  lemma {:induction false} OrderedWithout(v: seq<Held>, base: Seq32, n: nat)
    requires n < |v| && Ordered(v, base)
    ensures Ordered(v[..n] + v[n + 1..], base)
  {
    var r := v[..n] + v[n + 1..];
    forall i, j | 0 <= i < j < |r|
      ensures Distance(r[i].frame.seqNo, base) < Distance(r[j].frame.seqNo, base)
    {
      assert r[i] == if i < n then v[i] else v[i + 1];
      assert r[j] == if j < n then v[j] else v[j + 1];
    }
  }

  lemma {:induction false} BytesWithout(v: seq<Held>, n: nat)
    requires n < |v|
    ensures Bytes(v) == Bytes(v[..n] + v[n + 1..]) + |v[n].frame.data|
  {
    var r := v[..n] + v[n + 1..];
    InsertBytes(r, v[n], n);
    assert r[..n] + [v[n]] + r[n..] == v;
  }

  /** Erases every node before position `end`, as a keyframe over a gap does. */
  method ErasePrefix(keys: seq<int>, held: seq<Held>, bytes: nat, end: nat)
    returns (keys': seq<int>, held': seq<Held>, bytes': nat)
    requires |keys| == |held| && bytes == Bytes(held) && end <= |held|
    ensures keys' == keys[end..] && held' == held[end..] && bytes' == Bytes(held')
  {
    bytes' := bytes;
    assert held[0..] == held;
    for i := 0 to end
      invariant bytes' == Bytes(held[i..])
    {
      assert held[i..][1..] == held[i + 1..];
      bytes' := bytes' - |held[i].frame.data|;
    }
    keys', held' := keys[end..], held[end..];
  }

  lemma {:induction false} KeepNewerSnoc(v: seq<Held>, h: Held, q: Seq32)
    ensures KeepNewer(v + [h], q) == KeepNewer(v, q) + if Newer(h.frame.seqNo, q) then [h] else []
    decreases |v|
  {
    if v == [] {
    } else {
      assert (v + [h])[1..] == v[1..] + [h];
      KeepNewerSnoc(v[1..], h, q);
    }
  }

  lemma {:induction false} KeepFreshSnoc(v: seq<Held>, h: Held, now: int, hold: int)
    ensures KeepFresh(v + [h], now, hold) == KeepFresh(v, now, hold) + if now - h.arrived >= hold then [] else [h]
    decreases |v|
  {
    if v == [] {
    } else {
      assert (v + [h])[1..] == v[1..] + [h];
      KeepFreshSnoc(v[1..], h, now, hold);
    }
  }

  /** One step of an erase loop: node `i` stays or goes, and the scan moves on. */
  lemma {:induction false} ScanStep(w: seq<Held>, v: seq<Held>, i: nat, done: nat, front: seq<Held>)
    requires i < |w| && done < |v| && w == front + v[done..] && |front| == i
    ensures w[i] == v[done] && v[..done + 1] == v[..done] + [v[done]]
    ensures w[..i] + w[i + 1..] == front + v[done + 1..]
    ensures w == front + [v[done]] + v[done + 1..]
  {
    assert w[i + 1..] == v[done..][1..];
  }

  /** Erases, in place, every held frame not newer than `q`. */
  method EraseThrough(keys: seq<int>, held: seq<Held>, base: Seq32, bytes: nat, q: Seq32)
    returns (keys': seq<int>, held': seq<Held>, bytes': nat)
    requires Sound(keys, held, base, bytes)
    ensures Sound(keys', held', base, bytes')
    ensures held' == KeepNewer(held, q)
  {
    keys', held', bytes' := keys, held, bytes;
    ghost var done: nat := 0;
    ghost var kept: seq<Held> := [];
    var i := 0;
    assert held[..0] == [] && kept + held[0..] == held;
    while i < |held'|
      invariant done <= |held| && kept == KeepNewer(held[..done], q) && i == |kept|
      invariant held' == kept + held[done..]
      invariant Sound(keys', held', base, bytes')
      decreases |held'| - i
    {
      ScanStep(held', held, i, done, kept);
      KeepNewerSnoc(held[..done], held[done], q);
      if !Newer(held'[i].frame.seqNo, q) {
        keys', held', bytes' := EraseAt(keys', held', base, bytes', i);
      } else {
        kept := kept + [held[done]];
        i := i + 1;
      }
      done := done + 1;
      assert kept == KeepNewer(held[..done], q);
    }
    assert held[..done] == held && kept + held[done..] == kept;
  }

  /** Erases, in place, every delta held for `hold` or longer. */
  method EraseExpired(keys: seq<int>, held: seq<Held>, base: Seq32, bytes: nat, now: int, hold: int)
    returns (keys': seq<int>, held': seq<Held>, bytes': nat)
    requires Sound(keys, held, base, bytes)
    ensures Sound(keys', held', base, bytes')
    ensures held' == KeepFresh(held, now, hold)
  {
    keys', held', bytes' := keys, held, bytes;
    ghost var done: nat := 0;
    ghost var kept: seq<Held> := [];
    var i := 0;
    assert held[..0] == [] && kept + held[0..] == held;
    while i < |held'|
      invariant done <= |held| && kept == KeepFresh(held[..done], now, hold) && i == |kept|
      invariant held' == kept + held[done..]
      invariant Sound(keys', held', base, bytes')
      decreases |held'| - i
    {
      ScanStep(held', held, i, done, kept);
      KeepFreshSnoc(held[..done], held[done], now, hold);
      if now - held'[i].arrived >= hold {
        keys', held', bytes' := EraseAt(keys', held', base, bytes', i);
      } else {
        kept := kept + [held[done]];
        i := i + 1;
      }
      done := done + 1;
      assert kept == KeepFresh(held[..done], now, hold);
    }
    assert held[..done] == held && kept + held[done..] == kept;
  }

  /** `bound_held`: evicts from the far end of an anchored buffer, from the near end of an unanchored one. */
  method EraseOverflow(c: Config, keys: seq<int>, held: seq<Held>, base: Seq32, bytes: nat, anchored: bool)
    returns (keys': seq<int>, held': seq<Held>, bytes': nat)
    requires Sound(keys, held, base, bytes)
    ensures Sound(keys', held', base, bytes')
    ensures held' == Bound(c, held, anchored)
  {
    keys', held', bytes' := keys, held, bytes;
    while |held'| > c.maxHeldFrames || bytes' > c.maxBytes
      invariant Sound(keys', held', base, bytes')
      invariant Bound(c, held', anchored) == Bound(c, held, anchored)
      decreases |held'|
    {
      var victim := if anchored then |held'| - 1 else 0;
      assert anchored ==> held'[..victim] + held'[victim + 1..] == held'[..|held'| - 1];
      assert !anchored ==> held'[..victim] + held'[victim + 1..] == held'[1..];
      keys', held', bytes' := EraseAt(keys', held', base, bytes', victim);
    }
  }

  /** Where the older frames come first, keeping the newer ones is dropping a prefix. */
  lemma {:induction false} KeepNewerIsSuffix(v: seq<Held>, q: Seq32, n: nat)
    requires n <= |v|
    requires forall i :: 0 <= i < n ==> !Newer(v[i].frame.seqNo, q)
    requires forall i :: n <= i < |v| ==> Newer(v[i].frame.seqNo, q)
    ensures KeepNewer(v, q) == v[n..]
    decreases |v|
  {
    if v == [] {
    } else {
      var rest := v[1..];
      assert forall i :: 0 <= i < |rest| ==> rest[i] == v[i + 1];
      KeepNewerIsSuffix(rest, q, if n == 0 then 0 else n - 1);
    }
  }

  lemma {:induction false} WithoutAt(v: seq<Held>, n: nat)
    requires n < |v|
    requires forall i :: 0 <= i < n ==> v[i].frame.seqNo != v[n].frame.seqNo
    ensures Without(v, v[n].frame.seqNo) == v[..n] + v[n + 1..]
    decreases |v|
  {
    if n == 0 {
    } else {
      var rest := v[1..];
      assert forall i :: 0 <= i < |rest| ==> rest[i] == v[i + 1];
      WithoutAt(rest, n - 1);
      assert v[..n] + v[n + 1..] == [v[0]] + (rest[..n - 1] + rest[n..]);
    }
  }
}
