/**
 Bytes handed to the transport and not yet given back, counted lock-free by the encode
 threads, the capture threads and the transport worker. One state machine step is one
 atomic operation of one thread, in any order: a send is charged before the transport sees
 it, may complete before the send call returns, and is taken back when the call fails.
 The counter clamp of a completion is the compare-and-swap loop it is in the code.
 */
module SendAccounting {
  import opened SequenceNumbers

  datatype Source = Screen | Camera

  /** One value per source: each has its own controller. */
  datatype Two<T> = Two(screen: T, camera: T) {
    function Of(s: Source): T {
      if s == Screen then screen else camera
    }
    function With(s: Source, v: T): Two<T> {
      if s == Screen then this.(screen := v) else this.(camera := v)
    }
  }

  const HEADER_SIZE: nat := 14
  const MAX_PAYLOAD: nat := 4 * 1024 * 1024 - 1 - 4

  function PrefixBytes(s: Source): nat { if s == Screen then 1 else 2 }

  /** A frame to send: its encoded length, and whether the server takes per-frame streams. */
  datatype Job = Job(source: Source, perFrame: bool, len: nat)

  /** What the application charges for it before the send call. */
  function Accounted(j: Job): nat {
    if j.perFrame then PrefixBytes(j.source) + HEADER_SIZE + j.len
    else 4 + (1 + HEADER_SIZE) + j.len
  }

  datatype Kind = Control | VideoStream1 | VideoFrame | Stream1Ctl

  /** What the transport keeps with an accepted send and reports from its completion. */
  datatype Context = Context(kind: Kind, source: Source, len: nat)

  /** The transport refuses an oversized frame before it queues anything. */
  predicate WithinCap(j: Job) {
    (if j.perFrame then HEADER_SIZE else 1 + HEADER_SIZE) + j.len <= MAX_PAYLOAD
  }

  /** The context built for a frame: the byte count is kept in 32 bits. */
  function ContextOf(j: Job): Context {
    if j.perFrame
    then Context(VideoFrame, j.source, (PrefixBytes(j.source) + (HEADER_SIZE + j.len)) % TWO32)
    else Context(VideoStream1, Screen, (4 + ((1 + HEADER_SIZE) + j.len)) % TWO32)
  }

  /** The controller a completed context is reported to, if any. */
  function ReportedTo(c: Context): set<Source> {
    match c.kind
    case VideoFrame => {c.source}
    case VideoStream1 => {Screen}
    case Control => {}
    case Stream1Ctl => {}
  }

  /** Where one send is. `after` is the local variable of the clamp loop. */
  datatype Send =
    | Charged(job: Job)
    | Accepted(ctx: Context)
    | Refused(job: Job)
    | Settling(source: Source, after: int)
    | Done

  /** An admission check between its two loads; `before` counts the frames unsent at its start. */
  datatype Probe = Idle | SawOutstanding(seen: int, before: nat) | SawAllowance(limit: int)

  datatype Gate = Gate(allowance: int, peak: int, admitted: nat, probe: Probe)

  datatype State = State(outstanding: Two<int>, sends: seq<Send>, gates: Two<Gate>)

  datatype Action =
    | Charge(job: Job)
    | Accept(id: nat)
    | Refuse(id: nat)
    | SendOther(kind: Kind, len: nat)
    | Complete(id: nat)
    | TakeBack(id: nat)
    | Clamp(id: nat, spurious: bool)
    | LoadOutstanding(source: Source)
    | LoadAllowance(source: Source)
    | Decide(source: Source)
    | DropAdmitted(source: Source)
    | SetAllowance(source: Source, bytes: nat)

  function Start(): State {
    var g := Gate(0, 0, 0, Idle);
    State(Two(0, 0), [], Two(g, g))
  }

  function WithSend(s: State, id: nat, x: Send): State
    requires id < |s.sends|
  {
    s.(sends := s.sends[id := x])
  }

  /** fetch_sub, keeping the value it leaves. */
  function Subtract(s: State, id: nat, source: Source, bytes: nat): State
    requires id < |s.sends|
  {
    var after := s.outstanding.Of(source) - bytes;
    WithSend(s, id, Settling(source, after)).(outstanding := s.outstanding.With(source, after))
  }

  /** One step; a step that its thread cannot take now changes nothing. */
  function Next(s: State, a: Action): State {
    match a
    case Charge(job) =>
      if !job.perFrame && job.source == Camera then s
      else
        var g := s.gates.Of(job.source);
        s.(outstanding := s.outstanding.With(job.source, s.outstanding.Of(job.source) + Accounted(job)),
           sends := s.sends + [Charged(job)],
           gates := s.gates.With(job.source, g.(admitted := if g.admitted > 0 then g.admitted - 1 else 0)))
    case Accept(id) =>
      if id < |s.sends| && s.sends[id].Charged? && WithinCap(s.sends[id].job)
      then WithSend(s, id, Accepted(ContextOf(s.sends[id].job))) else s
    case Refuse(id) =>
      if id < |s.sends| && s.sends[id].Charged? then WithSend(s, id, Refused(s.sends[id].job)) else s
    case SendOther(kind, len) =>
      if kind == Control || kind == Stream1Ctl
      then s.(sends := s.sends + [Accepted(Context(kind, Screen, len))]) else s
    case Complete(id) =>
      if id < |s.sends| && s.sends[id].Accepted? then
        var c := s.sends[id].ctx;
        if Screen in ReportedTo(c) then Subtract(s, id, Screen, c.len)
        else if Camera in ReportedTo(c) then Subtract(s, id, Camera, c.len)
        else WithSend(s, id, Done)
      else s
    case TakeBack(id) =>
      if id < |s.sends| && s.sends[id].Refused?
      then Subtract(s, id, s.sends[id].job.source, Accounted(s.sends[id].job)) else s
    case Clamp(id, spurious) =>
      if id < |s.sends| && s.sends[id].Settling? then ClampStep(s, id, spurious) else s
    case LoadOutstanding(source) =>
      var g := s.gates.Of(source);
      if g.probe == Idle
      then s.(gates := s.gates.With(source, g.(probe := SawOutstanding(s.outstanding.Of(source), g.admitted))))
      else s
    case LoadAllowance(source) =>
      var g := s.gates.Of(source);
      if g.probe == Idle then s.(gates := s.gates.With(source, g.(probe := SawAllowance(g.allowance)))) else s
    case Decide(source) => s.(gates := s.gates.With(source, DecideStep(s.gates.Of(source), s.outstanding.Of(source))))
    case DropAdmitted(source) =>
      var g := s.gates.Of(source);
      s.(gates := s.gates.With(source, g.(admitted := if g.admitted > 0 then g.admitted - 1 else 0)))
    case SetAllowance(source, bytes) =>
      var g := s.gates.Of(source);
      s.(gates := s.gates.With(source, g.(allowance := bytes, peak := if g.peak < bytes then bytes else g.peak)))
  }

  /** One turn of the clamp loop: leave it, or try to swap the negative value for zero. */
  function ClampStep(s: State, id: nat, spurious: bool): State
    requires id < |s.sends| && s.sends[id].Settling?
  {
    var source, after := s.sends[id].source, s.sends[id].after;
    var now := s.outstanding.Of(source);
    if after >= 0 then WithSend(s, id, Done)
    else if now == after && !spurious then WithSend(s, id, Done).(outstanding := s.outstanding.With(source, 0))
    else WithSend(s, id, Settling(source, now))
  }

  /** The second load and the verdict of an admission check. */
  function DecideStep(g: Gate, out: int): Gate {
    match g.probe
    case Idle => g
    case SawOutstanding(seen, _) =>
      g.(probe := Idle, admitted := if seen <= g.allowance then g.admitted + 1 else g.admitted)
    case SawAllowance(limit) =>
      g.(probe := Idle, admitted := if out <= limit then g.admitted + 1 else g.admitted)
  }

  function Run(acts: seq<Action>): State
    decreases |acts|
  {
    if acts == [] then Start() else Next(Run(acts[..|acts| - 1]), acts[|acts| - 1])
  }

  // ---- conservation ----

  /** The bytes a send still has charged to `source`. */
  function Weight(x: Send, source: Source): nat {
    match x
    case Charged(job) => if job.source == source then Accounted(job) else 0
    case Accepted(ctx) => if source in ReportedTo(ctx) then ctx.len else 0
    case Refused(job) => if job.source == source then Accounted(job) else 0
    case Settling(_, _) => 0
    case Done => 0
  }

  function Owed(sends: seq<Send>, source: Source): nat
    decreases |sends|
  {
    if sends == [] then 0 else Owed(sends[..|sends| - 1], source) + Weight(sends[|sends| - 1], source)
  }

  /** The counter is exactly what is charged and not given back, and no clamp is pending. */
  ghost predicate Conserved(s: State) {
    && (forall source :: s.outstanding.Of(source) == Owed(s.sends, source))
    && (forall i :: 0 <= i < |s.sends| && s.sends[i].Settling? ==> s.sends[i].after >= 0)
    && (forall i :: 0 <= i < |s.sends| && s.sends[i].Charged? ==> s.sends[i].job.perFrame || s.sends[i].job.source == Screen)
  }

  lemma {:induction false} OwedUpdate(sends: seq<Send>, id: nat, x: Send, source: Source)
    requires id < |sends|
    ensures Owed(sends[id := x], source) == Owed(sends, source) - Weight(sends[id], source) + Weight(x, source)
    decreases |sends|
  {
    var n := |sends| - 1;
    if id < n {
      OwedUpdate(sends[..n], id, x, source);
      assert sends[id := x][..n] == sends[..n][id := x];
    } else {
      assert sends[id := x][..n] == sends[..n];
    }
  }

  lemma {:induction false} OwedAppend(sends: seq<Send>, x: Send, source: Source)
    ensures Owed(sends + [x], source) == Owed(sends, source) + Weight(x, source)
  {
    assert (sends + [x])[..|sends|] == sends;
  }

  /** The application and the transport count the same bytes, for the same controller, on both transports. */
  lemma {:induction false} BothSidesCountAlike(j: Job, source: Source)
    requires WithinCap(j) && (j.perFrame || j.source == Screen)
    ensures ContextOf(j).len == Accounted(j)
    ensures ReportedTo(ContextOf(j)) == {j.source}
    ensures Weight(Accepted(ContextOf(j)), source) == Weight(Charged(j), source)
  {
  }

  lemma {:induction false} SendMoves(s: State, id: nat, x: Send)
    requires Conserved(s) && id < |s.sends|
    requires forall source :: Weight(x, source) == Weight(s.sends[id], source)
    requires x.Settling? ==> x.after >= 0
    requires x.Charged? ==> x.job.perFrame || x.job.source == Screen
    ensures Conserved(WithSend(s, id, x))
  {
    forall source
      ensures s.outstanding.Of(source) == Owed(s.sends[id := x], source)
    {
      OwedUpdate(s.sends, id, x, source);
    }
  }

  lemma {:induction false} SubtractKeeps(s: State, id: nat, source: Source, bytes: nat)
    requires Conserved(s) && id < |s.sends|
    requires Weight(s.sends[id], source) == bytes
    requires forall other :: other != source ==> Weight(s.sends[id], other) == 0
    ensures Conserved(Subtract(s, id, source, bytes))
    ensures Subtract(s, id, source, bytes).outstanding.Of(source) >= 0
  {
    var x := Settling(source, s.outstanding.Of(source) - bytes);
    var t := Subtract(s, id, source, bytes);
    forall other
      ensures t.outstanding.Of(other) == Owed(t.sends, other)
    {
      OwedUpdate(s.sends, id, x, other);
    }
    assert x.after == t.outstanding.Of(source) == Owed(t.sends, source);
  }

  lemma {:induction false} AppendKeeps(s: State, x: Send, out: Two<int>)
    requires Conserved(s) && !x.Settling?
    requires x.Charged? ==> x.job.perFrame || x.job.source == Screen
    requires forall source :: out.Of(source) == s.outstanding.Of(source) + Weight(x, source)
    ensures Conserved(s.(sends := s.sends + [x], outstanding := out))
  {
    forall source
      ensures out.Of(source) == Owed(s.sends + [x], source)
    {
      OwedAppend(s.sends, x, source);
    }
  }

  /** The gates are not part of the ledger. */
  lemma {:induction false} SameLedger(s: State, t: State)
    requires Conserved(s) && t.outstanding == s.outstanding && t.sends == s.sends
    ensures Conserved(t)
  {
  }

  lemma {:induction false} ChargeKeeps(s: State, job: Job)
    requires Conserved(s)
    ensures Conserved(Next(s, Charge(job)))
  {
    if job.perFrame || job.source == Screen {
      var out := s.outstanding.With(job.source, s.outstanding.Of(job.source) + Accounted(job));
      AppendKeeps(s, Charged(job), out);
      SameLedger(s.(sends := s.sends + [Charged(job)], outstanding := out), Next(s, Charge(job)));
    }
  }

  lemma {:induction false} AcceptKeeps(s: State, id: nat)
    requires Conserved(s)
    ensures Conserved(Next(s, Accept(id)))
  {
    if id < |s.sends| && s.sends[id].Charged? && WithinCap(s.sends[id].job) {
      var job := s.sends[id].job;
      BothSidesCountAlike(job, Screen);
      BothSidesCountAlike(job, Camera);
      SendMoves(s, id, Accepted(ContextOf(job)));
    }
  }

  lemma {:induction false} RefuseKeeps(s: State, id: nat)
    requires Conserved(s)
    ensures Conserved(Next(s, Refuse(id)))
  {
    if id < |s.sends| && s.sends[id].Charged? { SendMoves(s, id, Refused(s.sends[id].job)); }
  }

  lemma {:induction false} SendOtherKeeps(s: State, kind: Kind, len: nat)
    requires Conserved(s)
    ensures Conserved(Next(s, SendOther(kind, len)))
  {
    if kind == Control || kind == Stream1Ctl { AppendKeeps(s, Accepted(Context(kind, Screen, len)), s.outstanding); }
  }

  lemma {:induction false} TakeBackKeeps(s: State, id: nat)
    requires Conserved(s)
    ensures Conserved(Next(s, TakeBack(id)))
  {
    if id < |s.sends| && s.sends[id].Refused? {
      SubtractKeeps(s, id, s.sends[id].job.source, Accounted(s.sends[id].job));
    }
  }

  /** What is left to clamp is not negative, so the loop is left at once. */
  lemma {:induction false} ClampKeeps(s: State, id: nat, spurious: bool)
    requires Conserved(s)
    ensures Conserved(Next(s, Clamp(id, spurious)))
  {
    if id < |s.sends| && s.sends[id].Settling? { SendMoves(s, id, Done); }
  }

  lemma {:induction false} NextConserves(s: State, a: Action)
    requires Conserved(s)
    ensures Conserved(Next(s, a))
  {
    match a
    case Charge(job) => ChargeKeeps(s, job);
    case Accept(id) => AcceptKeeps(s, id);
    case Refuse(id) => RefuseKeeps(s, id);
    case SendOther(kind, len) => SendOtherKeeps(s, kind, len);
    case Complete(id) => if id < |s.sends| && s.sends[id].Accepted? { CompleteKeeps(s, id); }
    case TakeBack(id) => TakeBackKeeps(s, id);
    case Clamp(id, spurious) => ClampKeeps(s, id, spurious);
    case _ => SameLedger(s, Next(s, a));
  }

  lemma {:induction false} CompleteKeeps(s: State, id: nat)
    requires Conserved(s) && id < |s.sends| && s.sends[id].Accepted?
    ensures Conserved(Next(s, Complete(id)))
  {
    var c := s.sends[id].ctx;
    if Screen in ReportedTo(c) {
      SubtractKeeps(s, id, Screen, c.len);
    } else if Camera in ReportedTo(c) {
      SubtractKeeps(s, id, Camera, c.len);
    } else {
      forall source
        ensures Weight(Done, source) == Weight(s.sends[id], source)
      {
        assert source == Screen || source == Camera;
      }
      SendMoves(s, id, Done);
    }
  }

  lemma {:induction false} RunConserves(acts: seq<Action>)
    ensures Conserved(Run(acts))
    decreases |acts|
  {
    if acts == [] {
    } else {
      RunConserves(acts[..|acts| - 1]);
      NextConserves(Run(acts[..|acts| - 1]), acts[|acts| - 1]);
    }
  }

  lemma {:induction false} DoneOwesNothing(sends: seq<Send>, source: Source)
    requires forall i :: 0 <= i < |sends| ==> sends[i].Done?
    ensures Owed(sends, source) == 0
    decreases |sends|
  {
    if sends == [] {
    } else {
      DoneOwesNothing(sends[..|sends| - 1], source);
    }
  }

  /**
   In every interleaving the counter of each source equals the bytes charged and neither
   completed nor taken back, is never negative, and is zero once every send is done.
   */
  lemma {:induction false} CounterIsExact(acts: seq<Action>, source: Source)
    ensures var s := Run(acts);
      && s.outstanding.Of(source) == Owed(s.sends, source) >= 0
      && ((forall i :: 0 <= i < |s.sends| ==> s.sends[i].Done?) ==> s.outstanding.Of(source) == 0)
  {
    RunConserves(acts);
    var s := Run(acts);
    if forall i :: 0 <= i < |s.sends| ==> s.sends[i].Done? { DoneOwesNothing(s.sends, source); }
  }

  /** The clamp never fires: every pass through it just leaves the loop. */
  lemma {:induction false} ClampNeverFires(acts: seq<Action>, id: nat, spurious: bool)
    ensures var s := Run(acts);
      id < |s.sends| && s.sends[id].Settling? ==>
        Next(s, Clamp(id, spurious)) == WithSend(s, id, Done)
  {
    RunConserves(acts);
  }

  // ---- admission bounds the backlog ----

  /** Frames admitted and not yet sent, the one being admitted included. */
  function Unsent(g: Gate): nat {
    g.admitted + if g.probe == Idle then 0 else 1
  }

  ghost predicate FewUnsent(acts: seq<Action>, source: Source, k: nat) {
    Unsent(Run(acts).gates.Of(source)) <= k
  }

  /** An enqueue after `before` uses up an admission and is no larger than `m` bytes. */
  ghost predicate SpendsAdmission(before: seq<Action>, a: Action, source: Source, m: nat) {
    a.Charge? && a.job.source == source ==> Accounted(a.job) <= m && Run(before).gates.Of(source).admitted > 0
  }

  /** Every enqueue uses up an admission, at most `k` frames are unsent at once, none exceeds `m` bytes. */
  ghost predicate Disciplined(acts: seq<Action>, source: Source, k: nat, m: nat) {
    && (forall i :: 0 <= i <= |acts| ==> FewUnsent(acts[..i], source, k))
    && (forall i :: 0 <= i < |acts| ==> SpendsAdmission(acts[..i], acts[i], source, m))
  }

  ghost predicate Bounded(out: int, g: Gate, k: nat, m: nat) {
    && g.allowance <= g.peak
    && out + m * g.admitted <= g.peak + k * m
    && match g.probe
       case Idle => true
       case SawOutstanding(seen, before) => out + m * g.admitted <= seen + m * before && before + 1 <= k
       case SawAllowance(limit) => limit <= g.peak
  }

  lemma {:induction false} Times(m: nat, n: nat)
    ensures m * (n + 1) == m * n + m
  {
  }

  lemma {:induction false} TimesMonotone(m: nat, a: nat, b: nat)
    requires a <= b
    ensures m * a <= m * b && m * b == b * m
  {
  }

  lemma {:induction false} DecideBounded(out: int, g: Gate, k: nat, m: nat)
    requires Bounded(out, g, k, m) && Unsent(g) <= k
    ensures Bounded(out, DecideStep(g, out), k, m)
  {
    Times(m, g.admitted);
    match g.probe
    case Idle =>
    case SawOutstanding(seen, before) =>
      Times(m, before);
      TimesMonotone(m, before + 1, k);
    case SawAllowance(limit) =>
      TimesMonotone(m, g.admitted + 1, k);
  }

  lemma {:induction false} SpendBounded(out: int, g: Gate, k: nat, m: nat, bytes: nat)
    requires Bounded(out, g, k, m) && g.admitted > 0 && bytes <= m
    ensures Bounded(out + bytes, g.(admitted := g.admitted - 1), k, m)
  {
    Times(m, g.admitted - 1);
  }

  /** Fewer bytes out, or a wider peak, only relaxes the bound. */
  lemma {:induction false} RelaxedIsBounded(out: int, g: Gate, out': int, allowance: nat, k: nat, m: nat)
    requires Bounded(out, g, k, m) && out' <= out
    ensures Bounded(out', g, k, m)
    ensures Bounded(out, g.(allowance := allowance, peak := if g.peak < allowance then allowance else g.peak), k, m)
  {
  }

  lemma {:induction false} LoadBounded(out: int, g: Gate, k: nat, m: nat)
    requires Bounded(out, g, k, m) && g.probe == Idle
    ensures g.admitted + 1 <= k ==> Bounded(out, g.(probe := SawOutstanding(out, g.admitted)), k, m)
    ensures Bounded(out, g.(probe := SawAllowance(g.allowance)), k, m)
  {
  }

  /** The steps of the transport only ever take bytes off the counter, and leave the gates alone. */
  lemma {:induction false} TransportStep(s: State, a: Action, source: Source)
    requires Conserved(s)
    requires a.Accept? || a.Refuse? || a.SendOther? || a.Complete? || a.TakeBack? || a.Clamp?
    ensures Next(s, a).gates == s.gates && Next(s, a).outstanding.Of(source) <= s.outstanding.Of(source)
  {
  }

  lemma {:induction false} NextBounded(s: State, a: Action, source: Source, k: nat, m: nat)
    requires Conserved(s) && Bounded(s.outstanding.Of(source), s.gates.Of(source), k, m)
    requires Unsent(s.gates.Of(source)) <= k && Unsent(Next(s, a).gates.Of(source)) <= k
    requires a.Charge? && a.job.source == source ==> Accounted(a.job) <= m && s.gates.Of(source).admitted > 0
    ensures Bounded(Next(s, a).outstanding.Of(source), Next(s, a).gates.Of(source), k, m)
  {
    var out, g := s.outstanding.Of(source), s.gates.Of(source);
    match a
    case Charge(job) =>
      if job.source == source { SpendBounded(out, g, k, m, Accounted(job)); }
    case DropAdmitted(src) =>
      if src == source && g.admitted > 0 { SpendBounded(out, g, k, m, 0); }
    case Decide(src) =>
      if src == source { DecideBounded(out, g, k, m); }
    case LoadOutstanding(src) =>
      if src == source && g.probe == Idle { LoadBounded(out, g, k, m); }
    case LoadAllowance(src) =>
      if src == source && g.probe == Idle { LoadBounded(out, g, k, m); }
    case SetAllowance(src, bytes) =>
      if src == source { RelaxedIsBounded(out, g, out, bytes, k, m); }
    case _ =>
      TransportStep(s, a, source);
      RelaxedIsBounded(out, g, Next(s, a).outstanding.Of(source), 0, k, m);
  }

  lemma {:induction false} DisciplinedBefore(before: seq<Action>, a: Action, source: Source, k: nat, m: nat)
    requires Disciplined(before + [a], source, k, m)
    ensures Disciplined(before, source, k, m)
    ensures FewUnsent(before, source, k) && FewUnsent(before + [a], source, k) && SpendsAdmission(before, a, source, m)
  {
    var acts := before + [a];
    assert acts[..|acts|] == acts && acts[..|before|] == before && acts[|before|] == a;
    assert FewUnsent(acts[..|acts|], source, k) && SpendsAdmission(acts[..|before|], acts[|before|], source, m);
    forall i | 0 <= i <= |before|
      ensures FewUnsent(before[..i], source, k)
    {
      assert acts[..i] == before[..i];
      assert FewUnsent(acts[..i], source, k);
    }
    forall i | 0 <= i < |before|
      ensures SpendsAdmission(before[..i], before[i], source, m)
    {
      assert acts[..i] == before[..i] && acts[i] == before[i];
      assert SpendsAdmission(acts[..i], acts[i], source, m);
    }
    assert before[..|before|] == before;
  }

  lemma {:induction false} RunBounded(acts: seq<Action>, source: Source, k: nat, m: nat)
    requires Disciplined(acts, source, k, m)
    ensures Bounded(Run(acts).outstanding.Of(source), Run(acts).gates.Of(source), k, m)
    decreases |acts|
  {
    if acts == [] {
      TimesMonotone(m, 0, k);
    } else {
      var n := |acts| - 1;
      assert acts == acts[..n] + [acts[n]];
      DisciplinedBefore(acts[..n], acts[n], source, k, m);
      RunBounded(acts[..n], source, k, m);
      RunConserves(acts[..n]);
      assert Run(acts) == Next(Run(acts[..n]), acts[n]);
      NextBounded(Run(acts[..n]), acts[n], source, k, m);
    }
  }

  /**
   If every enqueue uses up an admission, at most `k` admitted frames are unsent at once
   and no frame exceeds `m` bytes, the backlog never exceeds the largest allowance so far
   plus `k * m`, in every run with completions, failures, drops and changing allowances.
   */
  lemma {:induction false} BacklogIsBounded(acts: seq<Action>, source: Source, k: nat, m: nat)
    requires Disciplined(acts, source, k, m)
    ensures Run(acts).outstanding.Of(source) <= Run(acts).gates.Of(source).peak + k * m
  {
    RunBounded(acts, source, k, m);
    var g := Run(acts).gates.Of(source);
    TimesMonotone(m, 0, g.admitted);
  }
}
