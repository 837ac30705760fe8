/** What must have happened before: every stage of a live run is reached only through the checks and
    waits of the stages before it, whatever is clicked, aborted or thrown. */
module LiveHistory {
  import opened Common
  import opened Journal
  import opened Gate
  import opened LiveRun
  import opened LivePhases
  import opened LiveLedger
  import opened LiveTrace
  import opened LiveInvariant

  /** The state in which input k arrives. */
  function At(h: Hasher, cfg: Config, inputs: seq<Input>, k: nat): LiveState
    requires k <= |inputs|
  {
    After(h, cfg, inputs[..k])
  }

  /** Input k is an operation of the run thread. */
  predicate Works(inputs: seq<Input>, k: nat) {
    k < |inputs| && inputs[k].Work?
  }

  lemma {:induction false} OneMore(h: Hasher, cfg: Config, inputs: seq<Input>, k: nat)
    requires k < |inputs|
    ensures At(h, cfg, inputs, k + 1) == Respond(h, cfg, At(h, cfg, inputs, k), inputs[k])
  {
    var s := At(h, cfg, inputs, k);
    assert inputs[..k + 1] == inputs[..k] + [inputs[k]];
    StepsAppend(h, cfg, Initial(), inputs[..k], [inputs[k]]);
    assert [inputs[k]][1..] == [];
    assert Steps(h, cfg, Respond(h, cfg, s, inputs[k]), []) == Respond(h, cfg, s, inputs[k]);
  }

  /** What holds of a state but not at the start came to hold at some input, for the last time. */
  lemma {:induction false} LastEntry(h: Hasher, cfg: Config, inputs: seq<Input>, n: nat, q: LiveState -> bool) returns (k: nat)
    requires n <= |inputs| && !q(Initial()) && q(At(h, cfg, inputs, n))
    ensures k < n && !q(At(h, cfg, inputs, k)) && q(Respond(h, cfg, At(h, cfg, inputs, k), inputs[k]))
    ensures forall j :: k < j <= n ==> q(At(h, cfg, inputs, j))
  {
    assert At(h, cfg, inputs, 0) == Initial();
    if q(At(h, cfg, inputs, n - 1)) {
      k := LastEntry(h, cfg, inputs, n - 1, q);
    } else {
      k := n - 1;
      OneMore(h, cfg, inputs, k);
    }
  }

  // ----- what leads where --------------------------------------------------------------------------

  /** The operation that led from s to another point, if nothing threw. */
  lemma {:induction false} MovedOn(h: Hasher, cfg: Config, s: LiveState, i: Input)
    requires !Respond(h, cfg, s, i).at.Handler? && Respond(h, cfg, s, i).at != s.at
    ensures i.Work? && !Interrupted(s.at, i.a.fault)
    ensures Respond(h, cfg, s, i).at == Successor(h, cfg, s.at, s.data, i.a)
    ensures Respond(h, cfg, s, i).data == Perform(h, cfg, s.at, s.data, i.a)
  {}

  predicate Baselining(p: Point) {
    p.EmitInjecting? || p.Inject?
  }

  lemma {:induction false} IntoInjection(p: Point, c: Cues)
    ensures Baselining(Flow(p, c)) && !Baselining(p) ==> p.WaitBaseline? && c.due && !c.aborted
  {}

  lemma {:induction false} IntoBaselineWait(p: Point, c: Cues)
    ensures Flow(p, c).WaitBaseline? && !p.WaitBaseline? ==> p.EmitBaseline?
  {}

  predicate Investigating(p: Point) {
    p.EmitInvestigating? || p.Investigate?
  }

  lemma {:induction false} IntoInvestigation(p: Point, c: Cues)
    ensures Investigating(Flow(p, c)) && !Investigating(p) ==> p.WaitSoak? && c.due && !c.aborted
  {}

  lemma {:induction false} IntoSoakWait(p: Point, c: Cues)
    ensures Flow(p, c).WaitSoak? && !p.WaitSoak? ==> p.EmitSoak?
  {}

  lemma {:induction false} IntoSoak(p: Point, c: Cues)
    ensures Flow(p, c).EmitSoak? ==> p.Inject?
  {}

  lemma {:induction false} IntoDecisionWait(p: Point, c: Cues)
    ensures Flow(p, c).AwaitDecision? && !p.AwaitDecision? ==> p.SetDeadline?
  {}

  // ----- timed waits ---------------------------------------------------------------------------------

  /** The operation at input i set off a wait of so many seconds, and at input j its end was read. */
  predicate WaitedOut(inputs: seq<Input>, i: nat, j: nat, seconds: real) {
    i < j && Works(inputs, i) && Works(inputs, j) && inputs[j].a.now >= inputs[i].a.now + seconds
  }

  lemma {:induction false} FrameTheWait(h: Hasher, cfg: Config, p: Point, d: Data, a: Answer)
    requires !p.EmitBaseline? && !p.EmitSoak? && !p.SetDeadline?
    ensures Perform(h, cfg, p, d, a).deadline == d.deadline
  {}

  /** A thread that waits for the baseline to end read the clock when it entered the wait. */
  lemma {:induction false} BaselineBegan(h: Hasher, cfg: Config, inputs: seq<Input>, n: nat) returns (i: nat)
    requires n <= |inputs| && At(h, cfg, inputs, n).at.WaitBaseline?
    ensures i < n && Works(inputs, i) && At(h, cfg, inputs, i).at.EmitBaseline?
    ensures At(h, cfg, inputs, n).data.deadline == inputs[i].a.now + cfg.baselineS
  {
    var until := At(h, cfg, inputs, n).data.deadline;
    i := LastEntry(h, cfg, inputs, n, (s: LiveState) => s.at.WaitBaseline? && s.data.deadline == until);
    var s := At(h, cfg, inputs, i);
    if s.at.WaitBaseline? {
      if inputs[i].Work? { FrameTheWait(h, cfg, s.at, s.data, inputs[i].a); }
    } else {
      MovedOn(h, cfg, s, inputs[i]);
      IntoBaselineWait(s.at, CuesAt(h, cfg, s, inputs[i].a));
    }
  }

  function CuesAt(h: Hasher, cfg: Config, s: LiveState, a: Answer): Cues {
    CuesOf(s.at, s.data, a, |Perform(h, cfg, s.at, s.data, a).world.runs| > |s.data.world.runs|)
  }

  /** No fault is injected before the baseline window has passed. */
  lemma {:induction false} InjectionWaits(h: Hasher, cfg: Config, inputs: seq<Input>, n: nat) returns (i: nat, j: nat)
    requires n <= |inputs| && At(h, cfg, inputs, n).at.Inject?
    ensures j < n && WaitedOut(inputs, i, j, cfg.baselineS)
    ensures At(h, cfg, inputs, i).at.EmitBaseline? && At(h, cfg, inputs, j).at.WaitBaseline?
  {
    j := LastEntry(h, cfg, inputs, n, (s: LiveState) => Baselining(s.at));
    var s := At(h, cfg, inputs, j);
    MovedOn(h, cfg, s, inputs[j]);
    IntoInjection(s.at, CuesAt(h, cfg, s, inputs[j].a));
    i := BaselineBegan(h, cfg, inputs, j);
  }

  lemma {:induction false} SoakBegan(h: Hasher, cfg: Config, inputs: seq<Input>, n: nat) returns (i: nat)
    requires n <= |inputs| && At(h, cfg, inputs, n).at.WaitSoak?
    ensures i < n && Works(inputs, i) && At(h, cfg, inputs, i).at.EmitSoak?
    ensures At(h, cfg, inputs, n).data.deadline == inputs[i].a.now + cfg.soakS
  {
    var until := At(h, cfg, inputs, n).data.deadline;
    i := LastEntry(h, cfg, inputs, n, (s: LiveState) => s.at.WaitSoak? && s.data.deadline == until);
    var s := At(h, cfg, inputs, i);
    if s.at.WaitSoak? {
      if inputs[i].Work? { FrameTheWait(h, cfg, s.at, s.data, inputs[i].a); }
    } else {
      MovedOn(h, cfg, s, inputs[i]);
      IntoSoakWait(s.at, CuesAt(h, cfg, s, inputs[i].a));
    }
  }

  lemma {:induction false} SoakFollows(h: Hasher, cfg: Config, inputs: seq<Input>, n: nat) returns (e: nat)
    requires n <= |inputs| && At(h, cfg, inputs, n).at.EmitSoak?
    ensures e < n && Works(inputs, e) && At(h, cfg, inputs, e).at.Inject?
  {
    e := LastEntry(h, cfg, inputs, n, (s: LiveState) => s.at.EmitSoak?);
    var s := At(h, cfg, inputs, e);
    MovedOn(h, cfg, s, inputs[e]);
    IntoSoak(s.at, CuesAt(h, cfg, s, inputs[e].a));
  }

  /** No investigation before a fault was injected and has soaked for its time. */
  lemma {:induction false} InvestigationWaits(h: Hasher, cfg: Config, inputs: seq<Input>, n: nat) returns (e: nat, i: nat, j: nat)
    requires n <= |inputs| && At(h, cfg, inputs, n).at.Investigate?
    ensures e < i && j < n && WaitedOut(inputs, i, j, cfg.soakS)
    ensures At(h, cfg, inputs, e).at.Inject?
    ensures At(h, cfg, inputs, i).at.EmitSoak? && At(h, cfg, inputs, j).at.WaitSoak?
  {
    j := LastEntry(h, cfg, inputs, n, (s: LiveState) => Investigating(s.at));
    var s := At(h, cfg, inputs, j);
    MovedOn(h, cfg, s, inputs[j]);
    IntoInvestigation(s.at, CuesAt(h, cfg, s, inputs[j].a));
    i := SoakBegan(h, cfg, inputs, j);
    e := SoakFollows(h, cfg, inputs, i);
  }

  lemma {:induction false} DecisionWaitBegan(h: Hasher, cfg: Config, inputs: seq<Input>, n: nat) returns (i: nat)
    requires n <= |inputs| && At(h, cfg, inputs, n).at.AwaitDecision?
    ensures i < n && Works(inputs, i) && At(h, cfg, inputs, i).at.SetDeadline?
    ensures At(h, cfg, inputs, n).data.deadline == inputs[i].a.now + cfg.ttlS
  {
    var until := At(h, cfg, inputs, n).data.deadline;
    i := LastEntry(h, cfg, inputs, n, (s: LiveState) => s.at.AwaitDecision? && s.data.deadline == until);
    var s := At(h, cfg, inputs, i);
    if s.at.AwaitDecision? {
      if inputs[i].Work? { FrameTheWait(h, cfg, s.at, s.data, inputs[i].a); }
    } else {
      MovedOn(h, cfg, s, inputs[i]);
      IntoDecisionWait(s.at, CuesAt(h, cfg, s, inputs[i].a));
    }
  }

  // ----- the wait for a decision ------------------------------------------------------------------------

  /** Somebody clicked and was told so, or asked for an abort. */
  ghost predicate SomebodyActed(trace: seq<Effect>) {
    exists i :: 0 <= i < |trace| && (trace[i].Acknowledged? || trace[i].AbortRequested?)
  }

  ghost predicate ReadyOk(d: Data) {
    d.ready <==> SomebodyActed(d.trace)
  }

  lemma {:induction false} AppendActed(trace: seq<Effect>, e: Effect)
    ensures SomebodyActed(trace + [e]) <==> SomebodyActed(trace) || e.Acknowledged? || e.AbortRequested?
  {
    var more := trace + [e];
    assert more[|trace|] == e;
    if SomebodyActed(trace) {
      var i :| 0 <= i < |trace| && (trace[i].Acknowledged? || trace[i].AbortRequested?);
      assert more[i] == trace[i];
    }
    assert forall i :: 0 <= i < |trace| ==> more[i] == trace[i];
  }

  lemma {:induction false} WorkKeepsReady(h: Hasher, cfg: Config, p: Point, d: Data, a: Answer)
    requires ReadyOk(d)
    ensures ReadyOk(Perform(h, cfg, p, d, a))
  {
    var d' := Perform(h, cfg, p, d, a);
    var ran := |d'.world.runs| > |d.world.runs|;
    FrameReady(h, cfg, p, d, a);
    PerformTrace(h, cfg, p, d, a);
    var more := Appended(p, d, ran);
    if more == [] { assert d'.trace == d.trace; } else { AppendActed(d.trace, more[0]); }
  }

  lemma {:induction false} ReadyIffActed(h: Hasher, cfg: Config, inputs: seq<Input>, n: nat)
    requires n <= |inputs|
    ensures ReadyOk(At(h, cfg, inputs, n).data)
  {
    if n == 0 {
      assert At(h, cfg, inputs, 0) == Initial();
    } else {
      ReadyIffActed(h, cfg, inputs, n - 1);
      OneMore(h, cfg, inputs, n - 1);
      var s := At(h, cfg, inputs, n - 1);
      match inputs[n - 1] {
        case Work(a) => WorkKeepsReady(h, cfg, s.at, s.data, a);
        case Abort => AppendActed(s.data.trace, AbortRequested);
        case Click(d) => AppendActed(s.data.trace, Acknowledged(d));
      }
    }
  }

  /** Beyond the wait, on the way to executing or to the end. */
  predicate Beyond(p: Point) {
    p.CheckAbort? || p.ReadWhetherDecided? || p.ReadDecision? || p.JournalVerdict? || p.EmitExecuting? || p.RunGate?
  }

  lemma {:induction false} IntoBeyond(p: Point, c: Cues)
    ensures Beyond(Flow(p, c)) && !Beyond(p) ==> p.AwaitDecision? && (c.ready || c.due)
  {}

  /** The wait for a decision waits: past it, either its time ran out by a clock reading taken in it,
      or somebody had clicked or asked for an abort. */
  lemma {:induction false} DecisionsAreWaitedFor(h: Hasher, cfg: Config, inputs: seq<Input>, n: nat) returns (i: nat, j: nat)
    requires n <= |inputs| && Beyond(At(h, cfg, inputs, n).at)
    ensures i < j < n && Works(inputs, i) && Works(inputs, j)
    ensures At(h, cfg, inputs, i).at.SetDeadline? && At(h, cfg, inputs, j).at.AwaitDecision?
    ensures WaitedOut(inputs, i, j, cfg.ttlS) || SomebodyActed(At(h, cfg, inputs, j).data.trace)
  {
    j := LastEntry(h, cfg, inputs, n, (s: LiveState) => Beyond(s.at));
    var s := At(h, cfg, inputs, j);
    MovedOn(h, cfg, s, inputs[j]);
    IntoBeyond(s.at, CuesAt(h, cfg, s, inputs[j].a));
    ReadyIffActed(h, cfg, inputs, j);
    i := DecisionWaitBegan(h, cfg, inputs, j);
  }

  /** And it ends: once somebody has acted, or the deadline it began with is reached, the next
      operation leaves it. */
  lemma {:induction false} DecisionsAreHeeded(h: Hasher, cfg: Config, inputs: seq<Input>, n: nat)
    requires Works(inputs, n) && At(h, cfg, inputs, n).at.AwaitDecision? && inputs[n].a.fault.NoFault?
    ensures At(h, cfg, inputs, n + 1).at.CheckAbort?
       <==> SomebodyActed(At(h, cfg, inputs, n).data.trace) || inputs[n].a.now >= At(h, cfg, inputs, n).data.deadline
  {
    ReadyIffActed(h, cfg, inputs, n);
    OneMore(h, cfg, inputs, n);
    OperateThrough(h, cfg, At(h, cfg, inputs, n), inputs[n].a);
  }

  // ----- an expiry is earned ---------------------------------------------------------------------------

  lemma {:induction false} FrameLapsed(h: Hasher, cfg: Config, p: Point, d: Data, a: Answer)
    requires !Journals(p) && !p.ReadDecision?
    ensures Lapsed(h, Perform(h, cfg, p, d, a)) <==> Lapsed(h, d)
  {
    FrameWorld(h, cfg, p, d, a);
    FrameAction(h, cfg, p, d, a);
    FrameDeadline(h, cfg, p, d, a);
    FrameSample(h, cfg, p, d, a);
  }

  lemma {:induction false} OthersDoNotLapse(h: Hasher, cfg: Config, p: Point, d: Data, a: Answer)
    requires LedgerOk(h, p, d) && (p.JournalVerdict? ==> d.sample.Some?)
    requires Journals(p) && !p.ReadWhetherDecided?
    ensures !Lapsed(h, Perform(h, cfg, p, d, a))
  {
    StageOf(h, p, d);
    FrameSample(h, cfg, p, d, a);
    if p.Propose? { OfferIsShort(h, cfg, p, d, a); }
    if p.Announce? { AnnounceLedger(h, d); }
  }

  lemma {:induction false} OfferIsShort(h: Hasher, cfg: Config, p: Point, d: Data, a: Answer)
    requires Blank(d) && p.Propose?
    ensures |Perform(h, cfg, p, d, a).world.log| < 2
  {}

  /** Only reading that nobody decided lets the action lapse. */
  lemma {:induction false} IntoLapsed(h: Hasher, cfg: Config, s: LiveState, i: Input)
    requires Inv(h, s) && !Lapsed(h, s.data) && Lapsed(h, Respond(h, cfg, s, i).data)
    ensures i.Work? && s.at.ReadWhetherDecided? && s.data.decision.None? && !Interrupted(s.at, i.a.fault)
  {
    if i.Work? && !Interrupted(s.at, i.a.fault) {
      var d := Perform(h, cfg, s.at, s.data, i.a);
      if s.at.ReadDecision? {
        FrameSample(h, cfg, s.at, s.data, i.a);
      } else if Journals(s.at) && !s.at.ReadWhetherDecided? {
        OthersDoNotLapse(h, cfg, s.at, s.data, i.a);
      } else if !Journals(s.at) {
        FrameLapsed(h, cfg, s.at, s.data, i.a);
      }
    }
  }

  lemma {:induction false} NoClick(trace: seq<Effect>)
    requires LastClick(trace).None?
    ensures forall i :: 0 <= i < |trace| ==> !trace[i].Acknowledged?
  {
    if trace != [] { NoClick(trace[..|trace| - 1]); }
  }

  /** The trace only grows. */
  lemma {:induction false} TraceGrows(h: Hasher, cfg: Config, inputs: seq<Input>, j: nat, k: nat)
    requires j <= k <= |inputs|
    ensures At(h, cfg, inputs, j).data.trace <= At(h, cfg, inputs, k).data.trace
    decreases k - j
  {
    if j < k {
      TraceGrows(h, cfg, inputs, j, k - 1);
      OneMore(h, cfg, inputs, k - 1);
      var s := At(h, cfg, inputs, k - 1);
      TraceGrowsByOne(h, cfg, s, inputs[k - 1]);
    }
  }

  lemma {:induction false} TraceGrowsByOne(h: Hasher, cfg: Config, s: LiveState, i: Input)
    ensures s.data.trace <= Respond(h, cfg, s, i).data.trace
  {
    if i.Work? { PerformTrace(h, cfg, s.at, s.data, i.a); }
  }

  lemma {:induction false} IntoPastCheck(p: Point, c: Cues)
    ensures PastAbortCheck(Flow(p, c)) && !PastAbortCheck(p) ==> p.CheckAbort? && !c.aborted
  {
    FlowPastCheck(p, c);
  }

  /** Whoever had acted when the wait ended had clicked, if the thread got past its abort check. */
  lemma {:induction false} ActedMeansClicked(h: Hasher, cfg: Config, inputs: seq<Input>, j: nat, k: nat)
    requires j < k <= |inputs| && At(h, cfg, inputs, j).at.AwaitDecision? && PastAbortCheck(At(h, cfg, inputs, k).at)
    requires SomebodyActed(At(h, cfg, inputs, j).data.trace)
    ensures exists l :: 0 <= l < |At(h, cfg, inputs, k).data.trace| && At(h, cfg, inputs, k).data.trace[l].Acknowledged?
  {
    var m := LastEntry(h, cfg, inputs, k, (s: LiveState) => PastAbortCheck(s.at));
    var s := At(h, cfg, inputs, m);
    MovedOn(h, cfg, s, inputs[m]);
    IntoPastCheck(s.at, CuesAt(h, cfg, s, inputs[m].a));
    assert j <= m;
    TraceGrows(h, cfg, inputs, j, m);
    TraceGrows(h, cfg, inputs, m, k);
    Always(h, cfg, inputs[..m]);
    var trace := At(h, cfg, inputs, j).data.trace;
    var l :| 0 <= l < |trace| && (trace[l].Acknowledged? || trace[l].AbortRequested?);
    assert s.data.trace[l] == trace[l] && At(h, cfg, inputs, k).data.trace[l] == trace[l];
  }

  /** When the thread journals that nobody decided, nobody had: no click had been acknowledged by then,
      and the time allowed had run out by a clock reading taken in the wait. */
  lemma {:induction false} ExpiryIsEarned(h: Hasher, cfg: Config, inputs: seq<Input>, n: nat) returns (i: nat, j: nat, k: nat)
    requires n <= |inputs| && Lapsed(h, At(h, cfg, inputs, n).data)
    ensures i < j < k < n && Works(inputs, k)
    ensures At(h, cfg, inputs, i).at.SetDeadline? && At(h, cfg, inputs, j).at.AwaitDecision?
    ensures At(h, cfg, inputs, k).at.ReadWhetherDecided?
    ensures WaitedOut(inputs, i, j, cfg.ttlS)
    ensures forall l :: 0 <= l < |At(h, cfg, inputs, k).data.trace| ==> !At(h, cfg, inputs, k).data.trace[l].Acknowledged?
  {
    k := LastEntry(h, cfg, inputs, n, (s: LiveState) => Lapsed(h, s.data));
    var s := At(h, cfg, inputs, k);
    Always(h, cfg, inputs[..k]);
    IntoLapsed(h, cfg, s, inputs[k]);
    NoClick(s.data.trace);
    i, j := DecisionsAreWaitedFor(h, cfg, inputs, k);
    if SomebodyActed(At(h, cfg, inputs, j).data.trace) { ActedMeansClicked(h, cfg, inputs, j, k); }
  }

  // ----- no fault without the checks before it --------------------------------------------------------

  predicate Swept(p: Point) {
    p.SweepResidue? || p.EmitBaseline? || p.WaitBaseline? || Baselining(p)
  }

  predicate Booted(p: Point) {
    p.AwaitIngest? || Swept(p)
  }

  predicate Checked(p: Point) {
    p.EmitBooting? || p.CheckRunning? || p.AwaitRunning? || Booted(p)
  }

  lemma {:induction false} IntoSwept(p: Point, c: Cues)
    ensures Swept(Flow(p, c)) && !Swept(p) ==> p.AwaitIngest? && p.left > 0 && c.flowing && !c.aborted
  {}

  lemma {:induction false} IntoBooted(p: Point, c: Cues)
    ensures Booted(Flow(p, c)) && !Booted(p) ==> (p.CheckRunning? || (p.AwaitRunning? && p.left > 0 && !c.aborted)) && c.ok
  {}

  lemma {:induction false} IntoChecked(p: Point, c: Cues)
    ensures Checked(Flow(p, c)) && !Checked(p) ==> p.CheckPreflight? && c.ok
  {}

  /** Metrics had arrived within the last two minutes. */
  predicate Fresh(a: Answer) {
    a.age.Some? && a.age.value <= 120.0
  }

  /** Preflight passed at input c, every service was seen running at r, and fresh metrics at f. */
  ghost predicate BootedAt(h: Hasher, cfg: Config, inputs: seq<Input>, c: nat, r: nat, f: nat)
    requires c < r < f < |inputs|
  {
    && Works(inputs, c) && Works(inputs, r) && Works(inputs, f)
    && At(h, cfg, inputs, c).at.CheckPreflight? && inputs[c].a.ok
    && (At(h, cfg, inputs, r).at.CheckRunning? || At(h, cfg, inputs, r).at.AwaitRunning?) && inputs[r].a.ok
    && At(h, cfg, inputs, f).at.AwaitIngest? && Fresh(inputs[f].a)
  }

  lemma {:induction false} BaselineIsEarned(h: Hasher, cfg: Config, inputs: seq<Input>, n: nat) returns (c: nat, r: nat, f: nat)
    requires n <= |inputs| && Swept(At(h, cfg, inputs, n).at)
    ensures c < r < f < n && BootedAt(h, cfg, inputs, c, r, f)
  {
    f := FreshSeen(h, cfg, inputs, n);
    r := RunningSeen(h, cfg, inputs, f);
    c := PreflightSeen(h, cfg, inputs, r);
  }

  lemma {:induction false} FreshSeen(h: Hasher, cfg: Config, inputs: seq<Input>, n: nat) returns (f: nat)
    requires n <= |inputs| && Swept(At(h, cfg, inputs, n).at)
    ensures f < n && Works(inputs, f) && At(h, cfg, inputs, f).at.AwaitIngest? && Fresh(inputs[f].a)
  {
    f := LastEntry(h, cfg, inputs, n, (s: LiveState) => Swept(s.at));
    EntryMoves(h, cfg, At(h, cfg, inputs, f), inputs[f]);
    IntoSwept(At(h, cfg, inputs, f).at, CuesAt(h, cfg, At(h, cfg, inputs, f), inputs[f].a));
  }

  lemma {:induction false} RunningSeen(h: Hasher, cfg: Config, inputs: seq<Input>, n: nat) returns (r: nat)
    requires n <= |inputs| && Booted(At(h, cfg, inputs, n).at)
    ensures r < n && Works(inputs, r) && inputs[r].a.ok
    ensures At(h, cfg, inputs, r).at.CheckRunning? || At(h, cfg, inputs, r).at.AwaitRunning?
  {
    r := LastEntry(h, cfg, inputs, n, (s: LiveState) => Booted(s.at));
    EntryMoves(h, cfg, At(h, cfg, inputs, r), inputs[r]);
    IntoBooted(At(h, cfg, inputs, r).at, CuesAt(h, cfg, At(h, cfg, inputs, r), inputs[r].a));
  }

  lemma {:induction false} PreflightSeen(h: Hasher, cfg: Config, inputs: seq<Input>, n: nat) returns (c: nat)
    requires n <= |inputs| && Checked(At(h, cfg, inputs, n).at)
    ensures c < n && Works(inputs, c) && At(h, cfg, inputs, c).at.CheckPreflight? && inputs[c].a.ok
  {
    c := LastEntry(h, cfg, inputs, n, (s: LiveState) => Checked(s.at));
    EntryMoves(h, cfg, At(h, cfg, inputs, c), inputs[c]);
    IntoChecked(At(h, cfg, inputs, c).at, CuesAt(h, cfg, At(h, cfg, inputs, c), inputs[c].a));
  }

  /** Before a fault is injected the preflight checks passed, every service was seen running, fresh
      metrics were seen and the baseline window passed, in this order. */
  lemma {:induction false} InjectionIsEarned(h: Hasher, cfg: Config, inputs: seq<Input>, n: nat)
    returns (c: nat, r: nat, f: nat, i: nat, j: nat)
    requires n <= |inputs| && Injected in At(h, cfg, inputs, n).data.trace
    ensures c < r < f < i < j < n && BootedAt(h, cfg, inputs, c, r, f)
    ensures At(h, cfg, inputs, i).at.EmitBaseline? && At(h, cfg, inputs, j).at.WaitBaseline?
    ensures WaitedOut(inputs, i, j, cfg.baselineS)
  {
    var k := LastEntry(h, cfg, inputs, n, (s: LiveState) => Injected in s.data.trace);
    InjectsAtInject(h, cfg, At(h, cfg, inputs, k), inputs[k]);
    i, j := InjectionWaits(h, cfg, inputs, k);
    c, r, f := BaselineIsEarned(h, cfg, inputs, i);
  }

  lemma {:induction false} EntryMoves(h: Hasher, cfg: Config, s: LiveState, i: Input)
    requires !Respond(h, cfg, s, i).at.Handler? && Respond(h, cfg, s, i).at != s.at
    ensures i.Work? && Respond(h, cfg, s, i).at == Flow(s.at, CuesAt(h, cfg, s, i.a))
  {
    MovedOn(h, cfg, s, i);
  }

  lemma {:induction false} InjectsAtInject(h: Hasher, cfg: Config, s: LiveState, i: Input)
    requires Injected !in s.data.trace && Injected in Respond(h, cfg, s, i).data.trace
    ensures i.Work? && s.at.Inject?
  {
    if i.Work? { PerformTrace(h, cfg, s.at, s.data, i.a); }
  }
}
