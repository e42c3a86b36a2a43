/**
 The byte counters and admission gates told from the actions alone: what was charged, what
 came back, what the allowance was set to, and when a frame is admitted.
 */
module SendLedger {
  import opened SendAccounting

  // ---- charged and returned ----

  /** Does the application charge this frame at all? A camera needs per-frame streams. */
  predicate Chargeable(job: Job) { job.perFrame || job.source == Screen }

  /** The bytes charged to `source` by the actions. */
  function ChargedBy(acts: seq<Action>, source: Source): nat
    decreases |acts|
  {
    if acts == [] then 0
    else
      var a := acts[|acts| - 1];
      ChargedBy(acts[..|acts| - 1], source) +
      if a.Charge? && Chargeable(a.job) && a.job.source == source then Accounted(a.job) else 0
  }

  /** What one action gives back to `source`: a completion the bytes of its context, a take-back those of its frame. */
  function GivesBack(s: State, a: Action, source: Source): nat {
    match a
    case Complete(id) =>
      if id < |s.sends| && s.sends[id].Accepted? && source in ReportedTo(s.sends[id].ctx) then s.sends[id].ctx.len else 0
    case TakeBack(id) =>
      if id < |s.sends| && s.sends[id].Refused? && s.sends[id].job.source == source then Accounted(s.sends[id].job) else 0
    case _ => 0
  }

  function Returned(acts: seq<Action>, source: Source): nat
    decreases |acts|
  {
    if acts == [] then 0
    else
      var n := |acts| - 1;
      Returned(acts[..n], source) + GivesBack(Run(acts[..n]), acts[n], source)
  }

  lemma {:induction false} StepBalances(s: State, a: Action, source: Source)
    requires Conserved(s)
    ensures Next(s, a).outstanding.Of(source) == s.outstanding.Of(source) - GivesBack(s, a, source) +
      if a.Charge? && Chargeable(a.job) && a.job.source == source then Accounted(a.job) else 0
  {
  }

  /** In every interleaving the counter is what was charged less what was given back, and both are what the actions say. */
  lemma {:induction false} CounterIsTheBalance(acts: seq<Action>, source: Source)
    ensures Run(acts).outstanding.Of(source) == ChargedBy(acts, source) - Returned(acts, source)
    decreases |acts|
  {
    if acts == [] {
    } else {
      var n := |acts| - 1;
      CounterIsTheBalance(acts[..n], source);
      RunConserves(acts[..n]);
      StepBalances(Run(acts[..n]), acts[n], source);
    }
  }

  // ---- the life of one send ----

  /** What the counters were before the send, with `bytes` more for its source. */
  ghost predicate Adds(before: State, after: State, source: Source, bytes: int) {
    && after.outstanding.Of(source) == before.outstanding.Of(source) + bytes
    && (forall other :: other != source ==> after.outstanding.Of(other) == before.outstanding.Of(other))
  }

  /** A frame is charged; accepted it stays so until its completion gives everything back, and it is done. */
  lemma {:induction false} AcceptedSendComesBack(s: State, job: Job, spurious: bool)
    requires Conserved(s) && Chargeable(job) && WithinCap(job)
    ensures var id := |s.sends|;
      var s1 := Next(s, Charge(job)); var s2 := Next(s1, Accept(id));
      var s3 := Next(s2, Complete(id)); var s4 := Next(s3, Clamp(id, spurious));
      && Adds(s, s1, job.source, Accounted(job)) && Adds(s, s2, job.source, Accounted(job))
      && Adds(s, s3, job.source, 0) && Adds(s, s4, job.source, 0)
      && s4.sends == s.sends + [Done]
  {
    var id := |s.sends|;
    var s1 := Next(s, Charge(job));
    BothSidesCountAlike(job, job.source);
    NextConserves(s, Charge(job));
    NextConserves(s1, Accept(id));
    var s2 := Next(s1, Accept(id));
    assert s2.sends == s.sends + [Accepted(ContextOf(job))] && s2.outstanding == s1.outstanding;
    CompletionSubtracts(s2, id, job);
    SettlesAt(s2, id, job.source, Accounted(job));
  }

  lemma {:induction false} CompletionSubtracts(s: State, id: nat, job: Job)
    requires Chargeable(job) && WithinCap(job) && id < |s.sends| && s.sends[id] == Accepted(ContextOf(job))
    ensures Next(s, Complete(id)) == Subtract(s, id, job.source, Accounted(job))
  {
    BothSidesCountAlike(job, job.source);
  }

  lemma {:induction false} SettlesAt(s: State, id: nat, source: Source, bytes: nat)
    requires Conserved(s) && id < |s.sends| && s.outstanding.Of(source) >= bytes
    ensures var t := Subtract(s, id, source, bytes);
      Adds(s, t, source, 0 - bytes) && t.sends == s.sends[id := t.sends[id]] &&
      forall spurious :: ClampStep(t, id, spurious) == WithSend(t, id, Done)
  {
  }

  /** A frame that is charged and refused is taken back at once. */
  lemma {:induction false} RefusedSendIsTakenBack(s: State, job: Job, spurious: bool)
    requires Conserved(s) && Chargeable(job)
    ensures var id := |s.sends|;
      var s1 := Next(s, Charge(job)); var s2 := Next(s1, Refuse(id));
      var s3 := Next(s2, TakeBack(id)); var s4 := Next(s3, Clamp(id, spurious));
      && Adds(s, s2, job.source, Accounted(job))
      && Adds(s, s3, job.source, 0) && Adds(s, s4, job.source, 0)
      && s4.sends == s.sends + [Done]
  {
    var id := |s.sends|;
    var s1 := Next(s, Charge(job));
    var s2 := Next(s1, Refuse(id));
    NextConserves(s, Charge(job));
    NextConserves(s1, Refuse(id));
    assert s2.sends == s.sends + [Refused(job)];
    SettlesAt(s2, id, job.source, Accounted(job));
  }

  // ---- admission ----

  /** The allowance last set, 0 at the start. */
  function LastAllowance(acts: seq<Action>, source: Source): nat
    decreases |acts|
  {
    if acts == [] then 0
    else
      var a := acts[|acts| - 1];
      if a.SetAllowance? && a.source == source then a.bytes else LastAllowance(acts[..|acts| - 1], source)
  }

  /** The largest allowance ever set. */
  function LargestAllowance(acts: seq<Action>, source: Source): (m: nat)
    ensures forall i :: 0 <= i < |acts| && acts[i].SetAllowance? && acts[i].source == source ==> acts[i].bytes <= m
    ensures m == 0 || exists i :: 0 <= i < |acts| && acts[i].SetAllowance? && acts[i].source == source && acts[i].bytes == m
    decreases |acts|
  {
    if acts == [] then 0
    else
      var n := |acts| - 1;
      var m := LargestAllowance(acts[..n], source);
      assert forall i :: 0 <= i < n ==> acts[..n][i] == acts[i];
      if acts[n].SetAllowance? && acts[n].source == source && acts[n].bytes > m then acts[n].bytes else m
  }

  lemma {:induction false} OnlySettingsSetTheGate(s: State, a: Action, source: Source)
    ensures var g, h := s.gates.Of(source), Next(s, a).gates.Of(source);
      if a.SetAllowance? && a.source == source
      then h.allowance == a.bytes && h.peak == if g.peak < a.bytes then a.bytes else g.peak
      else h.allowance == g.allowance && h.peak == g.peak
  {
  }

  lemma {:induction false} GateFollowsItsSettings(acts: seq<Action>, source: Source)
    ensures Run(acts).gates.Of(source).allowance == LastAllowance(acts, source)
    ensures Run(acts).gates.Of(source).peak == LargestAllowance(acts, source)
    decreases |acts|
  {
    if acts == [] {
    } else {
      var n := |acts| - 1;
      GateFollowsItsSettings(acts[..n], source);
      OnlySettingsSetTheGate(Run(acts[..n]), acts[n], source);
      assert Run(acts) == Next(Run(acts[..n]), acts[n]);
    }
  }

  /** The backlog is bounded by the largest allowance that was ever set, and the frames in between. */
  lemma {:induction false} BacklogIsWithinTheLargestAllowance(acts: seq<Action>, source: Source, k: nat, m: nat)
    requires Disciplined(acts, source, k, m)
    ensures Run(acts).outstanding.Of(source) <= LargestAllowance(acts, source) + k * m
  {
    BacklogIsBounded(acts, source, k, m);
    GateFollowsItsSettings(acts, source);
  }

  /** A frame is admitted by the values its two loads saw, whichever came first and whatever happened in between. */
  lemma {:induction false} AdmittedByWhatWasSeen(s: State, t: State, source: Source)
    requires s.gates.Of(source).probe == Idle
    requires t.gates.Of(source).probe == Next(s, LoadOutstanding(source)).gates.Of(source).probe
    ensures Next(t, Decide(source)).gates.Of(source).admitted ==
      t.gates.Of(source).admitted + if s.outstanding.Of(source) <= t.gates.Of(source).allowance then 1 else 0
    ensures Next(t, Decide(source)).gates.Of(source).probe == Idle
  {
  }

  lemma {:induction false} AdmittedByWhatWasSeenLater(s: State, t: State, source: Source)
    requires s.gates.Of(source).probe == Idle
    requires t.gates.Of(source).probe == Next(s, LoadAllowance(source)).gates.Of(source).probe
    ensures Next(t, Decide(source)).gates.Of(source).admitted ==
      t.gates.Of(source).admitted + if t.outstanding.Of(source) <= s.gates.Of(source).allowance then 1 else 0
    ensures Next(t, Decide(source)).gates.Of(source).probe == Idle
  {
  }

  lemma {:induction false} RunSnoc(acts: seq<Action>, a: Action)
    ensures Run(acts + [a]) == Next(Run(acts), a)
  {
    assert (acts + [a])[..|acts|] == acts;
  }

  /**
   After every run, an undisturbed check admits a frame exactly if the bytes charged and not
   given back are within the allowance last set: so always when nothing is outstanding.
   */
  lemma {:induction false} FrameIsAdmittedExactlyWithinTheAllowance(acts: seq<Action>, source: Source, outstandingFirst: bool)
    requires Run(acts).gates.Of(source).probe == Idle
    ensures var first := if outstandingFirst then LoadOutstanding(source) else LoadAllowance(source);
      Run(acts + [first] + [Decide(source)]).gates.Of(source).admitted ==
        Run(acts).gates.Of(source).admitted +
        if ChargedBy(acts, source) - Returned(acts, source) <= LastAllowance(acts, source) then 1 else 0
  {
    var first := if outstandingFirst then LoadOutstanding(source) else LoadAllowance(source);
    var s := Run(acts);
    RunSnoc(acts, first);
    RunSnoc(acts + [first], Decide(source));
    CounterIsTheBalance(acts, source);
    GateFollowsItsSettings(acts, source);
    if outstandingFirst {
      AdmittedByWhatWasSeen(s, Next(s, first), source);
    } else {
      AdmittedByWhatWasSeenLater(s, Next(s, first), source);
    }
  }
}
