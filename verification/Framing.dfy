/**
 Length-prefixed framing of the two reliable streams: [u32 length][body], little-endian,
 cut by the network into arbitrary pieces. The control stream and video stream 1 differ
 only in when they look at the length and which lengths they accept.
 */
module Framing {
  import opened Basics

  /** Bytes buffered before the length is looked at, and the lengths accepted. */
  datatype Format = Format(lookAt: nat, minLen: nat, maxLen: nat)

  const CONTROL := Format(6, 2, 1024 * 1024)
  const VIDEO := Format(4, 1, 4 * 1024 * 1024)

  predicate Sane(f: Format) {
    4 <= f.lookAt <= 4 + f.minLen && f.maxLen < 0x1_0000_0000
  }

  function Read32(b: seq<Byte>): nat
    requires |b| >= 4
  {
    (b[0] as int) + 256 * (b[1] as int) + 65536 * (b[2] as int) + 16777216 * (b[3] as int)
  }

  function Write32(n: nat): (b: seq<Byte>)
    requires n < 0x1_0000_0000
    ensures |b| == 4
  {
    [n % 256, n / 256 % 256, n / 65536 % 256, n / 16777216]
  }

  lemma {:induction false} Read32Write32(n: nat, tail: seq<Byte>)
    requires n < 0x1_0000_0000
    ensures Read32(Write32(n) + tail) == n
  {
    var b := Write32(n) + tail;
    assert b[0] == n % 256 && b[1] == n / 256 % 256 && b[2] == n / 65536 % 256 && b[3] == n / 16777216;
    assert n / 256 / 256 == n / 65536 && n / 65536 / 256 == n / 16777216;
  }

  // ---- parsing ----

  /** The bodies found, what stays buffered, and whether an invalid length cleared the buffer. */
  datatype Parsed = Parsed(bodies: seq<seq<Byte>>, rest: seq<Byte>, cleared: bool)

  /** Is a length readable, and is it one the format refuses? */
  predicate Readable(f: Format, buf: seq<Byte>) {
    |buf| >= f.lookAt && |buf| >= 4
  }

  predicate Invalid(f: Format, buf: seq<Byte>)
    requires Readable(f, buf)
  {
    Read32(buf) < f.minLen || Read32(buf) > f.maxLen
  }

  predicate Complete(f: Format, buf: seq<Byte>) {
    Readable(f, buf) && !Invalid(f, buf) && |buf| >= 4 + Read32(buf)
  }

  /** The body of the complete frame a buffer starts with. */
  function Head(f: Format, buf: seq<Byte>): (b: seq<Byte>)
    requires Complete(f, buf)
    ensures |b| == Read32(buf)
  {
    buf[4..4 + Read32(buf)]
  }

  /** What follows that frame. */
  function Tail(f: Format, buf: seq<Byte>): (b: seq<Byte>)
    requires Complete(f, buf)
    ensures |b| + 4 + Read32(buf) == |buf|
  {
    buf[4 + Read32(buf)..]
  }

  function Behind(x: seq<Byte>, p: Parsed): Parsed {
    p.(bodies := [x] + p.bodies)
  }

  function Parse(f: Format, buf: seq<Byte>): (r: Parsed)
    decreases |buf|
  {
    if !Readable(f, buf) then Parsed([], buf, false)
    else if Invalid(f, buf) then Parsed([], [], true)
    else if !Complete(f, buf) then Parsed([], buf, false)
    else Behind(Head(f, buf), Parse(f, Tail(f, buf)))
  }

  /** A stream's parser, fed piece by piece. */
  class StreamParser {
    const format: Format
    var buf: seq<Byte>

    constructor (f: Format)
      ensures format == f && buf == []
    {
      format := f;
      buf := [];
    }

    method Process(data: seq<Byte>) returns (bodies: seq<seq<Byte>>, cleared: bool)
      requires Sane(format)
      modifies this
      ensures Parsed(bodies, buf, cleared) == Parse(format, old(buf) + data)
    {
      bodies, buf, cleared := ParseBuffer(format, buf + data);
    }
  }

  /** The loop: frames are taken off the front until none is complete, or a length is invalid. */
  method ParseBuffer(f: Format, buf: seq<Byte>) returns (bodies: seq<seq<Byte>>, rest: seq<Byte>, cleared: bool)
    requires Sane(f)
    ensures Parsed(bodies, rest, cleared) == Parse(f, buf)
  {
    ghost var whole := Parse(f, buf);
    bodies, rest := [], buf;
    assert [] + whole.bodies == whole.bodies;
    while |rest| >= f.lookAt
      invariant Continues(f, whole, bodies, rest)
      decreases |rest|
    {
      var n := Read32(rest);
      if n < f.minLen || n > f.maxLen {
        Stops(f, whole, bodies, rest);
        return bodies, [], true;
      }
      if |rest| < 4 + n { break; }
      TakesOneFrame(f, whole, bodies, rest);
      bodies, rest := bodies + [rest[4..4 + n]], rest[4 + n..];
    }
    Stops(f, whole, bodies, rest);
    cleared := false;
  }

  /** What remains to be parsed is `b`, after `bodies`. */
  ghost predicate Continues(f: Format, whole: Parsed, bodies: seq<seq<Byte>>, b: seq<Byte>) {
    var r := Parse(f, b);
    whole == Parsed(bodies + r.bodies, r.rest, r.cleared)
  }

  /** Without a complete frame there is nothing more to deliver: an invalid length clears, anything else waits. */
  lemma {:induction false} Stops(f: Format, whole: Parsed, bodies: seq<seq<Byte>>, b: seq<Byte>)
    requires !Complete(f, b) && Continues(f, whole, bodies, b)
    ensures whole == if Readable(f, b) && Invalid(f, b) then Parsed(bodies, [], true) else Parsed(bodies, b, false)
  {
    assert bodies + [] == bodies;
  }

  lemma {:induction false} TakesOneFrame(f: Format, whole: Parsed, bodies: seq<seq<Byte>>, b: seq<Byte>)
    requires Complete(f, b) && Continues(f, whole, bodies, b)
    ensures Continues(f, whole, bodies + [Head(f, b)], Tail(f, b))
  {
    var r := Parse(f, Tail(f, b));
    assert bodies + ([Head(f, b)] + r.bodies) == bodies + [Head(f, b)] + r.bodies;
  }

  // ---- pieces ----

  function Concat(pieces: seq<seq<Byte>>): seq<Byte>
    decreases |pieces|
  {
    if pieces == [] then [] else Concat(pieces[..|pieces| - 1]) + pieces[|pieces| - 1]
  }

  /** Everything a parser delivers when fed `pieces` one after the other from an empty buffer. */
  function FeedAll(f: Format, pieces: seq<seq<Byte>>): Parsed
    decreases |pieces|
  {
    if pieces == [] then Parsed([], [], false)
    else
      var before := FeedAll(f, pieces[..|pieces| - 1]);
      var r := Parse(f, before.rest + pieces[|pieces| - 1]);
      Parsed(before.bodies + r.bodies, r.rest, before.cleared || r.cleared)
  }

  /** What is known about a length does not change when more bytes arrive. */
  lemma {:induction false} LengthStays(f: Format, a: seq<Byte>, b: seq<Byte>)
    requires Readable(f, a)
    ensures Readable(f, a + b) && Invalid(f, a + b) == Invalid(f, a) && Read32(a + b) == Read32(a)
  {
    assert (a + b)[0] == a[0] && (a + b)[1] == a[1] && (a + b)[2] == a[2] && (a + b)[3] == a[3];
  }

  /** `w` is what a parser delivers that first delivered `p` and then got `b`. */
  ghost predicate Resumed(f: Format, p: Parsed, b: seq<Byte>, w: Parsed) {
    if p.cleared then w.cleared && w.bodies == p.bodies
    else var q := Parse(f, p.rest + b); w == Parsed(p.bodies + q.bodies, q.rest, q.cleared)
  }

  lemma {:induction false} ResumedBehind(f: Format, x: seq<Byte>, p: Parsed, b: seq<Byte>, w: Parsed)
    requires Resumed(f, p, b, w)
    ensures Resumed(f, Behind(x, p), b, Behind(x, w))
  {
    var q := Parse(f, p.rest + b);
    assert [x] + (p.bodies + q.bodies) == ([x] + p.bodies) + q.bodies;
  }

  /** A complete frame stays complete, and the bytes behind it come next. */
  lemma {:induction false} FrameStays(f: Format, a: seq<Byte>, b: seq<Byte>)
    requires Complete(f, a)
    ensures Complete(f, a + b)
    ensures Read32(a + b) == Read32(a) && Head(f, a + b) == Head(f, a) && Tail(f, a + b) == Tail(f, a) + b
  {
    LengthStays(f, a, b);
  }

  /** Parsing may stop anywhere and go on with what was kept. */
  lemma {:induction false} ParseResumes(f: Format, a: seq<Byte>, b: seq<Byte>)
    ensures Resumed(f, Parse(f, a), b, Parse(f, a + b))
    decreases |a|
  {
    if !Complete(f, a) {
      NothingYet(f, a, b);
    } else {
      ParseResumes(f, Tail(f, a), b);
      ResumesBehindAFrame(f, a, b);
    }
  }

  lemma {:induction false} ResumesBehindAFrame(f: Format, a: seq<Byte>, b: seq<Byte>)
    requires Complete(f, a) && Resumed(f, Parse(f, Tail(f, a)), b, Parse(f, Tail(f, a) + b))
    ensures Resumed(f, Parse(f, a), b, Parse(f, a + b))
  {
    FrameFirst(f, a, b);
    ResumedBehind(f, Head(f, a), Parse(f, Tail(f, a)), b, Parse(f, Tail(f, a) + b));
  }

  lemma {:induction false} FrameFirst(f: Format, a: seq<Byte>, b: seq<Byte>)
    requires Complete(f, a)
    ensures Parse(f, a) == Behind(Head(f, a), Parse(f, Tail(f, a)))
    ensures Parse(f, a + b) == Behind(Head(f, a), Parse(f, Tail(f, a) + b))
  {
    FrameStays(f, a, b);
  }

  lemma {:induction false} NothingYet(f: Format, a: seq<Byte>, b: seq<Byte>)
    requires !Complete(f, a)
    ensures Resumed(f, Parse(f, a), b, Parse(f, a + b))
  {
    assert [] + Parse(f, a + b).bodies == Parse(f, a + b).bodies;
    if Readable(f, a) { LengthStays(f, a, b); }
  }

  /** Whatever the cut, the parser delivers what it would from one piece, unless a length is invalid. */
  lemma {:induction false} ChunkingIsIrrelevant(f: Format, pieces: seq<seq<Byte>>)
    requires !Parse(f, Concat(pieces)).cleared
    ensures FeedAll(f, pieces) == Parse(f, Concat(pieces))
    decreases |pieces|
  {
    if pieces == [] {
    } else {
      var n := |pieces| - 1;
      ParseResumes(f, Concat(pieces[..n]), pieces[n]);
      ChunkingIsIrrelevant(f, pieces[..n]);
    }
  }

  /** Before an invalid length, too, the same bodies come first under every cut. */
  lemma {:induction false} BodiesBeforeAnErrorStay(f: Format, pieces: seq<seq<Byte>>)
    ensures Parse(f, Concat(pieces)).bodies <= FeedAll(f, pieces).bodies
    decreases |pieces|
  {
    if pieces == [] {
    } else {
      var n := |pieces| - 1;
      BodiesBeforeAnErrorStay(f, pieces[..n]);
      ParseResumes(f, Concat(pieces[..n]), pieces[n]);
      if !Parse(f, Concat(pieces[..n])).cleared {
        ChunkingIsIrrelevant(f, pieces[..n]);
      }
    }
  }

  /**
   After an invalid length the cut does matter: the whole buffer is cleared, so a frame
   behind the bad length is lost if it came in the same piece and found if it did not.
   */
  lemma {:induction false} ErrorRecoveryDependsOnTheCut()
    ensures var bad := [0, 0, 0, 0]; var good := [1, 0, 0, 0, 7];
      FeedAll(VIDEO, [bad + good]).bodies == [] && FeedAll(VIDEO, [bad, good]).bodies == [[7]]
  {
    var bad: seq<Byte> := [0, 0, 0, 0];
    var good: seq<Byte> := [1, 0, 0, 0, 7];
    var none: seq<seq<Byte>> := [];
    assert [bad + good][..0] == [] && [] + (bad + good) == bad + good;
    assert Parse(VIDEO, bad + good).cleared;
    assert [bad, good][..1] == [bad] && [bad][..0] == [];
    assert [] + bad == bad && [] + good == good;
    assert Parse(VIDEO, bad) == Parsed([], [], true);
    assert good[4..5] == [7] && good[5..] == [];
    assert Parse(VIDEO, good).bodies == [[7]] + none;
  }

  /** How many bytes were buffered when an invalid length was met, 0 if none was. */
  function BadTail(f: Format, buf: seq<Byte>): (n: nat)
    ensures n <= |buf|
    ensures n > 0 <==> Parse(f, buf).cleared && |buf| > 0
    decreases |buf|
  {
    if Complete(f, buf) then BadTail(f, Tail(f, buf))
    else if Readable(f, buf) && Invalid(f, buf) then |buf|
    else 0
  }

  /** If the bad length is only readable with the last byte, no strict prefix meets it. */
  lemma {:induction false} PrefixIsNotBad(f: Format, a: seq<Byte>, b: seq<Byte>)
    requires b != [] && BadTail(f, a + b) <= f.lookAt
    ensures !Parse(f, a).cleared
    decreases |a|
  {
    if Complete(f, a) {
      FrameStays(f, a, b);
      PrefixIsNotBad(f, Tail(f, a), b);
    } else if Readable(f, a) {
      LengthStays(f, a, b);
    }
  }

  /** If bytes follow the bad length, it is met without the last byte too, and leaves nothing. */
  lemma {:induction false} PrefixIsBad(f: Format, a: seq<Byte>, x: Byte)
    requires Sane(f) && BadTail(f, a + [x]) > f.lookAt
    ensures Parse(f, a).cleared
    decreases |a|
  {
    var w := a + [x];
    assert Readable(f, a);
    LengthStays(f, a, [x]);
    if !Complete(f, w) {
      assert Invalid(f, a);
    } else {
      assert |Tail(f, w)| > f.lookAt;
      assert Complete(f, a);
      FrameStays(f, a, [x]);
      PrefixIsBad(f, Tail(f, a), x);
    }
  }

  lemma {:induction false} ClearedLeavesNothing(f: Format, buf: seq<Byte>)
    ensures Parse(f, buf).cleared ==> Parse(f, buf).rest == []
    decreases |buf|
  {
    if Complete(f, buf) { ClearedLeavesNothing(f, Tail(f, buf)); }
  }

  /** The same bodies delivered, and the same bytes kept. */
  ghost predicate SameOutcome(p: Parsed, q: Parsed) {
    p.bodies == q.bodies && p.rest == q.rest
  }

  lemma {:induction false} LateErrorIgnoresTheCut(f: Format, pieces: seq<seq<Byte>>)
    requires Sane(f) && BadTail(f, Concat(pieces)) <= f.lookAt
    ensures SameOutcome(FeedAll(f, pieces), Parse(f, Concat(pieces)))
    decreases |pieces|
  {
    if pieces == [] {
    } else {
      var n := |pieces| - 1;
      var before := Concat(pieces[..n]);
      if pieces[n] == [] {
        assert before + [] == before;
        LateErrorIgnoresTheCut(f, pieces[..n]);
        ClearedLeavesNothing(f, before);
        ParseResumes(f, before, []);
      } else {
        PrefixIsNotBad(f, before, pieces[n]);
        ChunkingIsIrrelevant(f, pieces[..n]);
        ParseResumes(f, before, pieces[n]);
      }
    }
  }

  /**
   Exactly which byte streams parse alike under every cut: those with no invalid length,
   and those whose invalid length can only be read once the very last byte has arrived.
   */
  lemma {:induction false} CutMattersExactlyBehindAnError(f: Format, data: seq<Byte>)
    requires Sane(f)
    ensures (forall pieces :: Concat(pieces) == data ==> SameOutcome(FeedAll(f, pieces), Parse(f, data)))
      <==> BadTail(f, data) <= f.lookAt
  {
    if BadTail(f, data) <= f.lookAt {
      forall pieces | Concat(pieces) == data
        ensures SameOutcome(FeedAll(f, pieces), Parse(f, data))
      {
        LateErrorIgnoresTheCut(f, pieces);
      }
    } else {
      var n := |data| - 1;
      assert data[..n] + [data[n]] == data;
      OneByteLate(f, data[..n], data[n]);
    }
  }

  lemma {:induction false} OneByteLate(f: Format, a: seq<Byte>, x: Byte)
    requires Sane(f) && BadTail(f, a + [x]) > f.lookAt
    ensures Concat([a, [x]]) == a + [x]
    ensures !SameOutcome(FeedAll(f, [a, [x]]), Parse(f, a + [x]))
  {
    PrefixIsBad(f, a, x);
    ClearedLeavesNothing(f, a);
    ClearedLeavesNothing(f, a + [x]);
    var two: seq<seq<Byte>> := [a, [x]];
    var one: seq<seq<Byte>> := [a];
    assert two[..1] == one && one[..0] == [];
    assert [] + a == a && [] + [x] == [x];
    assert Concat(one) == a;
    assert FeedAll(f, one) == Parse(f, a);
    assert FeedAll(f, two).rest == [x];
  }

  // ---- sending ----

  predicate Sendable(f: Format, body: seq<Byte>) {
    f.minLen <= |body| <= f.maxLen
  }

  function Encode(f: Format, body: seq<Byte>): (b: seq<Byte>)
    requires Sane(f) && Sendable(f, body)
    ensures |b| == 4 + |body|
  {
    Write32(|body|) + body
  }

  function EncodeAll(f: Format, bodies: seq<seq<Byte>>): seq<Byte>
    requires Sane(f) && forall i :: 0 <= i < |bodies| ==> Sendable(f, bodies[i])
    decreases |bodies|
  {
    if bodies == [] then [] else Encode(f, bodies[0]) + EncodeAll(f, bodies[1..])
  }

  lemma {:induction false} ParseOne(f: Format, body: seq<Byte>, tail: seq<Byte>)
    requires Sane(f) && Sendable(f, body)
    ensures Parse(f, Encode(f, body) + tail) ==
      var r := Parse(f, tail); Parsed([body] + r.bodies, r.rest, r.cleared)
  {
    var buf := Encode(f, body) + tail;
    assert buf == Write32(|body|) + (body + tail);
    Read32Write32(|body|, body + tail);
    assert buf[4..4 + |body|] == body && buf[4 + |body|..] == tail;
  }

  lemma {:induction false} ParseEncoded(f: Format, bodies: seq<seq<Byte>>)
    requires Sane(f) && forall i :: 0 <= i < |bodies| ==> Sendable(f, bodies[i])
    ensures Parse(f, EncodeAll(f, bodies)) == Parsed(bodies, [], false)
    decreases |bodies|
  {
    if bodies == [] {
    } else {
      ParseEncoded(f, bodies[1..]);
      ParseOne(f, bodies[0], EncodeAll(f, bodies[1..]));
      assert bodies == [bodies[0]] + bodies[1..];
    }
  }

  /** Whatever is sent arrives exactly, however the bytes are cut. */
  lemma {:induction false} RoundTrip(f: Format, bodies: seq<seq<Byte>>, pieces: seq<seq<Byte>>)
    requires Sane(f) && forall i :: 0 <= i < |bodies| ==> Sendable(f, bodies[i])
    requires Concat(pieces) == EncodeAll(f, bodies)
    ensures FeedAll(f, pieces) == Parsed(bodies, [], false)
  {
    ParseEncoded(f, bodies);
    ChunkingIsIrrelevant(f, pieces);
  }

  /** `k` whole frames of `bodies` and a strict prefix of the next. */
  ghost predicate CutAt(f: Format, bodies: seq<seq<Byte>>, r: Parsed, k: nat)
    requires Sane(f) && forall i :: 0 <= i < |bodies| ==> Sendable(f, bodies[i])
  {
    && !r.cleared
    && k <= |bodies| && r.bodies == bodies[..k]
    && if k == |bodies| then r.rest == [] else r.rest < Encode(f, bodies[k])
  }

  lemma {:induction false} ParsePrefix(f: Format, bodies: seq<seq<Byte>>, p: seq<Byte>) returns (k: nat)
    requires Sane(f) && forall i :: 0 <= i < |bodies| ==> Sendable(f, bodies[i])
    requires p <= EncodeAll(f, bodies)
    ensures CutAt(f, bodies, Parse(f, p), k)
    decreases |bodies|
  {
    if bodies == [] {
      return 0;
    }
    var e := Encode(f, bodies[0]);
    PrefixSplits(e, EncodeAll(f, bodies[1..]), p);
    if |p| < |e| {
      PartialFrameWaits(f, bodies[0], p);
      return 0;
    }
    var j := ParsePrefix(f, bodies[1..], p[|e|..]);
    ParseOne(f, bodies[0], p[|e|..]);
    k := j + 1;
    CutShifts(f, bodies, Parse(f, p[|e|..]), j, Parse(f, p));
  }

  lemma {:induction false} PrefixSplits(e: seq<Byte>, more: seq<Byte>, p: seq<Byte>)
    requires p <= e + more
    ensures |p| < |e| ==> p < e
    ensures |p| >= |e| ==> p == e + p[|e|..] && p[|e|..] <= more
  {
    assert p == (e + more)[..|p|];
    if |p| >= |e| {
      assert p[..|e|] == e && p == p[..|e|] + p[|e|..];
      assert p[|e|..] == more[..|p| - |e|];
    }
  }

  lemma {:induction false} CutShifts(f: Format, bodies: seq<seq<Byte>>, r: Parsed, j: nat, w: Parsed)
    requires Sane(f) && bodies != [] && forall i :: 0 <= i < |bodies| ==> Sendable(f, bodies[i])
    requires CutAt(f, bodies[1..], r, j)
    requires w == Parsed([bodies[0]] + r.bodies, r.rest, r.cleared)
    ensures CutAt(f, bodies, w, j + 1)
  {
    assert bodies[..j + 1] == [bodies[0]] + bodies[1..][..j];
    if j + 1 < |bodies| { assert bodies[1..][j] == bodies[j + 1]; }
  }

  /** A strict prefix of a frame is kept and yields nothing. */
  lemma {:induction false} PartialFrameWaits(f: Format, body: seq<Byte>, p: seq<Byte>)
    requires Sane(f) && Sendable(f, body) && p < Encode(f, body)
    ensures Parse(f, p) == Parsed([], p, false)
  {
    if Readable(f, p) {
      Read32Write32(|body|, body);
      LengthStays(f, p, Encode(f, body)[|p|..]);
      assert p + Encode(f, body)[|p|..] == Encode(f, body);
    }
  }

  lemma {:induction false} ConcatPrefix(pieces: seq<seq<Byte>>, n: nat)
    requires n <= |pieces|
    ensures Concat(pieces[..n]) <= Concat(pieces)
    decreases |pieces|
  {
    if n < |pieces| {
      var m := |pieces| - 1;
      ConcatPrefix(pieces[..m], n);
      assert pieces[..m][..n] == pieces[..n];
    } else {
      assert pieces[..n] == pieces;
    }
  }

  /** After each piece whole frames have been delivered and a strict prefix of the next is kept. */
  lemma {:induction false} EveryPieceLeavesAStrictPrefix(f: Format, bodies: seq<seq<Byte>>, pieces: seq<seq<Byte>>, n: nat)
    returns (k: nat)
    requires Sane(f) && forall i :: 0 <= i < |bodies| ==> Sendable(f, bodies[i])
    requires Concat(pieces) == EncodeAll(f, bodies) && n <= |pieces|
    ensures CutAt(f, bodies, FeedAll(f, pieces[..n]), k)
  {
    ConcatPrefix(pieces, n);
    k := ParsePrefix(f, bodies, Concat(pieces[..n]));
    ChunkingIsIrrelevant(f, pieces[..n]);
  }

  // ---- control messages ----

  datatype Message = Message(kind: int, payload: seq<Byte>)

  predicate WellFormed(m: Message) {
    0 <= m.kind < 65536 && |m.payload| + 2 <= CONTROL.maxLen
  }

  function Body(m: Message): (b: seq<Byte>)
    requires WellFormed(m)
    ensures Sendable(CONTROL, b)
  {
    [m.kind % 256, m.kind / 256] + m.payload
  }

  function FromBody(b: seq<Byte>): Message
    requires |b| >= 2
  {
    Message((b[0] as int) + 256 * (b[1] as int), b[2..])
  }

  function Bodies(ms: seq<Message>): (r: seq<seq<Byte>>)
    requires forall i :: 0 <= i < |ms| ==> WellFormed(ms[i])
    ensures |r| == |ms| && forall i :: 0 <= i < |ms| ==> r[i] == Body(ms[i])
    decreases |ms|
  {
    if ms == [] then [] else [Body(ms[0])] + Bodies(ms[1..])
  }

  /** Control messages sent arrive as the same messages, in order, under every cut. */
  lemma {:induction false} MessagesRoundTrip(ms: seq<Message>, pieces: seq<seq<Byte>>)
    requires forall i :: 0 <= i < |ms| ==> WellFormed(ms[i])
    requires Concat(pieces) == EncodeAll(CONTROL, Bodies(ms))
    ensures var r := FeedAll(CONTROL, pieces);
      && |r.bodies| == |ms| && r.rest == [] && !r.cleared
      && forall i :: 0 <= i < |ms| ==> |r.bodies[i]| >= 2 && FromBody(r.bodies[i]) == ms[i]
  {
    RoundTrip(CONTROL, Bodies(ms), pieces);
    forall i | 0 <= i < |ms|
      ensures |Bodies(ms)[i]| >= 2 && FromBody(Bodies(ms)[i]) == ms[i]
    {
    }
  }
}
