/** The trace of a live run: clicks, aborts, sweeps, executions. */
module LiveTrace {
  import opened Common
  import opened Gate
  import opened LiveRun
  import opened LiveLedger

  function LastClick(trace: seq<Effect>): Option<Decision> {
    if trace == [] then None
    else if trace[|trace| - 1].Acknowledged? then Some(trace[|trace| - 1].d)
    else LastClick(trace[..|trace| - 1])
  }

  function Runs(trace: seq<Effect>): nat {
    if trace == [] then 0 else Runs(trace[..|trace| - 1]) + if trace[|trace| - 1].Ran? then 1 else 0
  }

  predicate BeforeSample(p: Point) {
    Stage(p) in {0, 5} || (Stage(p) == 1 && !p.JournalVerdict?)
  }

  predicate PastAbortCheck(p: Point) {
    p.ReadWhetherDecided? || p.ReadDecision? || p.JournalVerdict? || p.EmitExecuting? || p.RunGate?
  }

  /** What the thread read is the last click acknowledged before it read. */
  ghost predicate SampleOk(at: Point, d: Data) {
    && d.decision == LastClick(d.trace)
    && (at.ReadDecision? ==> d.decision.Some?)
    && (BeforeSample(at) ==> d.sample.None?)
    && (at.JournalVerdict? ==> d.sample.Some?)
    && (d.sample.Some? <==> exists k :: SampledAt(d.trace, k))
    && (forall k :: SampledAt(d.trace, k) ==> d.sample == Some(d.trace[k].d) == LastClick(d.trace[..k]))
  }

  predicate SampledAt(trace: seq<Effect>, k: int) {
    0 <= k < |trace| && trace[k].Sampled?
  }

  /** An abort requested before the check is never passed over. */
  ghost predicate AbortOk(at: Point, d: Data) {
    && (d.aborted <==> AbortRequested in d.trace)
    && (PastAbortCheck(at) ==> AbortChecked in d.trace)
    && (forall j, k :: 0 <= j < k < |d.trace| && d.trace[k].AbortChecked? ==> !d.trace[j].AbortRequested?)
    && (Ran in d.trace ==> AbortChecked in d.trace)
  }

  ghost predicate SweptOk(at: Point, trace: seq<Effect>) {
    at.Finished? ==> forall i :: 0 <= i < |trace| && trace[i].Injected? ==> exists j :: i < j < |trace| && trace[j].Swept?
  }

  /** What the operation at p appends to the trace. */
  function Appended(p: Point, d: Data, ran: bool): seq<Effect> {
    if p.SweepResidue? || p.Finally? then [Swept]
    else if p.Inject? then [Injected]
    else if p.CheckAbort? && !d.aborted then [AbortChecked]
    else if p.ReadDecision? && d.decision.Some? then [Sampled(d.decision.value)]
    else if p.RunGate? && ran then [Ran]
    else []
  }

  /** What an operation does to everything but the journal. */
  ghost predicate Does(p: Point, d: Data, d': Data, ran: bool) {
    && d'.trace == d.trace + Appended(p, d, ran)
    && d'.sample == (if p.ReadDecision? && d.decision.Some? then d.decision else d.sample)
    && d'.decision == d.decision && d'.aborted == d.aborted
    && |d'.world.runs| == |d.world.runs| + (if ran then 1 else 0) && (ran ==> p.RunGate?)
  }

  lemma {:induction false} PerformTrace(h: Hasher, cfg: Config, p: Point, d: Data, a: Answer)
    ensures var d' := Perform(h, cfg, p, d, a);
            d'.trace == d.trace + Appended(p, d, |d'.world.runs| > |d.world.runs|)
  {
    if p.RunGate? { GateTrace(h, cfg, p, d, a); } else { OthersTrace(h, cfg, p, d, a, |Perform(h, cfg, p, d, a).world.runs| > |d.world.runs|); }
  }

  predicate Traced(p: Point) {
    p.SweepResidue? || p.Finally? || p.Inject? || p.CheckAbort? || p.ReadDecision?
  }

  lemma {:induction false} TracedTrace(h: Hasher, cfg: Config, p: Point, d: Data, a: Answer, ran: bool)
    requires Traced(p)
    ensures Perform(h, cfg, p, d, a).trace == d.trace + Appended(p, d, ran)
  {}

  lemma {:induction false} SilentTrace(h: Hasher, cfg: Config, p: Point, d: Data, a: Answer)
    requires !Traced(p) && !p.RunGate?
    ensures Perform(h, cfg, p, d, a).trace == d.trace
  {}

  lemma {:induction false} OthersTrace(h: Hasher, cfg: Config, p: Point, d: Data, a: Answer, ran: bool)
    requires !p.RunGate?
    ensures Perform(h, cfg, p, d, a).trace == d.trace + Appended(p, d, ran)
  {
    if Traced(p) {
      TracedTrace(h, cfg, p, d, a, ran);
    } else {
      SilentTrace(h, cfg, p, d, a);
      assert Appended(p, d, ran) == [] && d.trace + [] == d.trace;
    }
  }

  lemma {:induction false} GateTrace(h: Hasher, cfg: Config, p: Point, d: Data, a: Answer)
    requires p.RunGate?
    ensures var d' := ThroughGate(h, cfg, d, a.now, a.call);
            d' == Perform(h, cfg, p, d, a) && d'.trace == d.trace + Appended(p, d, |d'.world.runs| > |d.world.runs|)
  {}

  lemma {:induction false} PerformDoes(h: Hasher, cfg: Config, p: Point, d: Data, a: Answer)
    ensures var d' := Perform(h, cfg, p, d, a); Does(p, d, d', |d'.world.runs| > |d.world.runs|)
  {
    PerformTrace(h, cfg, p, d, a);
    FrameSample(h, cfg, p, d, a);
    FrameDecision(h, cfg, p, d, a);
    FrameAborted(h, cfg, p, d, a);
    RunsGrowByOne(h, cfg, p, d, a);
  }

  lemma {:induction false} FlowUnread(p: Point, c: Cues)
    ensures BeforeSample(Flow(p, c)) ==> BeforeSample(p) && !p.ReadDecision?
  {}

  lemma {:induction false} FlowReads(p: Point, c: Cues)
    ensures Flow(p, c).ReadDecision? ==> c.decided && p.ReadWhetherDecided?
    ensures Flow(p, c).JournalVerdict? ==> c.decided && p.ReadDecision?
  {}

  lemma {:induction false} FlowPastCheck(p: Point, c: Cues)
    ensures PastAbortCheck(Flow(p, c)) ==> PastAbortCheck(p) || (p.CheckAbort? && !c.aborted)
  {}

  lemma {:induction false} FlowFinishes(p: Point, c: Cues)
    ensures Flow(p, c).Finished? ==> p.Finally? || p.Finished?
  {}

  lemma {:induction false} AppendClicks(trace: seq<Effect>, e: Effect)
    ensures LastClick(trace + [e]) == if e.Acknowledged? then Some(e.d) else LastClick(trace)
    ensures Runs(trace + [e]) == Runs(trace) + if e.Ran? then 1 else 0
  {
    assert (trace + [e])[..|trace|] == trace;
  }

  lemma {:induction false} AppendSampleOk(p: Point, d: Data, q: Point, d': Data, e: Effect)
    requires SampleOk(p, d)
    requires d'.trace == d.trace + [e]
    requires if e.Acknowledged? then d'.decision == Some(e.d) else d'.decision == d.decision
    requires if e.Sampled? then d.sample.None? && d'.sample == Some(e.d) == d.decision else d'.sample == d.sample
    requires BeforeSample(q) ==> BeforeSample(p) && !e.Sampled?
    requires q.ReadDecision? ==> d'.decision.Some?
    requires q.JournalVerdict? ==> p.JournalVerdict? || e.Sampled?
    ensures SampleOk(q, d')
  {
    AppendClicks(d.trace, e);
    var n := |d.trace|;
    forall k | SampledAt(d'.trace, k)
      ensures d'.sample == Some(d'.trace[k].d) == LastClick(d'.trace[..k])
    {
      if k < n { assert SampledAt(d.trace, k) && d'.trace[..k] == d.trace[..k]; }
      else { assert d'.trace[..k] == d.trace; }
    }
    if d.sample.Some? {
      var k :| SampledAt(d.trace, k);
      assert SampledAt(d'.trace, k);
    }
    if e.Sampled? { assert SampledAt(d'.trace, n); }
  }

  lemma {:induction false} StepSample(p: Point, d: Data, d': Data, ran: bool, c: Cues, q: Point)
    requires SampleOk(p, d) && Does(p, d, d', ran)
    requires c.decided == d.decision.Some?
    requires q == Flow(p, c) || q.Handler?
    ensures SampleOk(q, d')
  {
    FlowUnread(p, c);
    FlowReads(p, c);
    var more := Appended(p, d, ran);
    if more == [] {
      assert d'.trace == d.trace;
    } else {
      AppendSampleOk(p, d, q, d', more[0]);
    }
  }

  lemma {:induction false} AppendAbortOk(p: Point, d: Data, q: Point, d': Data, e: Effect)
    requires AbortOk(p, d)
    requires d'.trace == d.trace + [e] && d'.aborted == (d.aborted || e.AbortRequested?)
    requires e.AbortChecked? ==> !d.aborted
    requires PastAbortCheck(q) ==> PastAbortCheck(p) || e.AbortChecked?
    requires e.Ran? ==> PastAbortCheck(p)
    ensures AbortOk(q, d')
  {
    var n := |d.trace|;
    assert d'.trace[n] == e;
    forall j, k | 0 <= j < k <= n && d'.trace[k].AbortChecked? ensures !d'.trace[j].AbortRequested? {
      assert d'.trace[j] == d.trace[j];
      if k < n { assert d'.trace[k] == d.trace[k]; }
    }
  }

  lemma {:induction false} SameAbortOk(p: Point, d: Data, q: Point, d': Data)
    requires AbortOk(p, d) && d'.trace == d.trace && d'.aborted == d.aborted
    requires PastAbortCheck(q) ==> PastAbortCheck(p)
    ensures AbortOk(q, d')
  {}

  lemma {:induction false} StepAbort(p: Point, d: Data, d': Data, ran: bool, c: Cues, q: Point)
    requires AbortOk(p, d) && Does(p, d, d', ran)
    requires c.aborted == d.aborted
    requires q == Flow(p, c) || q.Handler?
    ensures AbortOk(q, d')
  {
    FlowPastCheck(p, c);
    var more := Appended(p, d, ran);
    if more == [] {
      assert d'.trace == d.trace;
      SameAbortOk(p, d, q, d');
    } else {
      AppendAbortOk(p, d, q, d', more[0]);
    }
  }

  lemma {:induction false} StepSwept(p: Point, d: Data, d': Data, ran: bool, c: Cues, q: Point)
    requires SweptOk(p, d.trace) && Does(p, d, d', ran)
    requires q == Flow(p, c) || q.Handler?
    ensures SweptOk(q, d'.trace)
  {
    FlowFinishes(p, c);
    if q.Finished? {
      if p.Finally? {
        assert d'.trace[|d.trace|].Swept?;
      } else {
        assert d'.trace == d.trace;
      }
    }
  }

  ghost predicate RunsOk(d: Data) {
    Runs(d.trace) == |d.world.runs|
  }

  lemma {:induction false} StepRuns(p: Point, d: Data, d': Data, ran: bool)
    requires RunsOk(d) && Does(p, d, d', ran)
    ensures RunsOk(d')
  {
    AppendedRuns(p, d, ran);
    var more := Appended(p, d, ran);
    if more == [] { assert d'.trace == d.trace; } else { AppendClicks(d.trace, more[0]); }
  }

  lemma {:induction false} AppendedRuns(p: Point, d: Data, ran: bool)
    ensures var more := Appended(p, d, ran);
            |more| <= 1 && (more != [] && more[0].Ran? <==> p.RunGate? && ran)
  {}

  lemma {:induction false} RunsMember(trace: seq<Effect>)
    ensures Runs(trace) > 0 <==> Ran in trace
  {
    if trace == [] {
    } else {
      var n := |trace| - 1;
      RunsMember(trace[..n]);
      assert trace == trace[..n] + [trace[n]];
    }
  }

  // ----- residue is swept first -----

  predicate NeedsSweep(p: Point) {
    p.EmitBaseline? || p.WaitBaseline? || p.EmitInjecting? || p.Inject?
  }

  ghost predicate CleanOk(at: Point, trace: seq<Effect>) {
    && (NeedsSweep(at) ==> Swept in trace)
    && forall k :: 0 <= k < |trace| && trace[k].Injected? ==> Swept in trace[..k]
  }

  lemma {:induction false} FlowClean(p: Point, c: Cues)
    ensures NeedsSweep(Flow(p, c)) ==> NeedsSweep(p) || p.SweepResidue?
  {}

  lemma {:induction false} AppendClean(p: Point, trace: seq<Effect>, q: Point, e: Effect)
    requires CleanOk(p, trace)
    requires NeedsSweep(q) ==> NeedsSweep(p) || e.Swept?
    requires e.Injected? ==> p.Inject?
    ensures CleanOk(q, trace + [e])
  {
    var more := trace + [e];
    forall k | 0 <= k < |more| && more[k].Injected? ensures Swept in more[..k] {
      assert more[..k] == trace[..k];
      assert k == |trace| ==> trace[..k] == trace;
    }
  }

  lemma {:induction false} OperateClean(h: Hasher, cfg: Config, s: LiveState, a: Answer)
    requires CleanOk(s.at, s.data.trace)
    ensures var t := Operate(h, cfg, s, a); CleanOk(t.at, t.data.trace)
  {
    if !Interrupted(s.at, a.fault) {
      var d := Perform(h, cfg, s.at, s.data, a);
      var ran := |d.world.runs| > |s.data.world.runs|;
      var c := CuesOf(s.at, s.data, a, ran);
      PerformTrace(h, cfg, s.at, s.data, a);
      FlowClean(s.at, c);
      var more := Appended(s.at, s.data, ran);
      if more == [] {
        assert d.trace == s.data.trace;
      } else {
        AppendClean(s.at, s.data.trace, Land(s.at, c, a.fault), more[0]);
      }
    }
  }

  lemma {:induction false} StepsClean(h: Hasher, cfg: Config, s: LiveState, inputs: seq<Input>)
    requires CleanOk(s.at, s.data.trace)
    ensures var t := Steps(h, cfg, s, inputs); CleanOk(t.at, t.data.trace)
    decreases |inputs|
  {
    if inputs == [] {
    } else {
      match inputs[0] {
        case Work(a) => OperateClean(h, cfg, s, a);
        case Abort => AppendClean(s.at, s.data.trace, s.at, AbortRequested);
        case Click(d) => AppendClean(s.at, s.data.trace, s.at, Acknowledged(d));
      }
      StepsClean(h, cfg, Respond(h, cfg, s, inputs[0]), inputs[1..]);
    }
  }

  /** Residue is swept before any fault is injected, so the baseline is clean. */
  lemma {:induction false} FaultsStartClean(h: Hasher, cfg: Config, inputs: seq<Input>, i: nat)
    requires var trace := After(h, cfg, inputs).data.trace; i < |trace| && trace[i].Injected?
    ensures Swept in After(h, cfg, inputs).data.trace[..i]
  {
    StepsClean(h, cfg, Initial(), inputs);
  }
}
