/** When a denial, an abort or the deadline is final. */
module LiveClicks {
  import opened Common
  import opened Journal
  import opened Gate
  import opened LiveRun
  import opened LivePhases
  import opened LiveLedger
  import opened LiveTrace
  import opened LiveInvariant

  // ----- an acknowledged denial can come too late -----

  predicate NoApproval(inputs: seq<Input>) {
    forall i :: i in inputs && i.Click? ==> i.d.verb == Deny
  }

  /** The thread has already read an approval that it has not yet announced as executing. */
  predicate ApprovalInHand(s: LiveState) {
    s.at.EmitExecuting? || (s.at.JournalVerdict? && s.data.sample.Some? && s.data.sample.value.verb == Approve)
  }

  ghost predicate Harmless(s: LiveState) {
    && s.data.world.runs == []
    && (EndPoint(s.at) || (&& s.data.decision.Some? && s.data.decision.value.verb == Deny
                           && (s.data.sample.Some? ==> s.data.sample.value.verb == Deny)))
  }

  /** Nothing but an approval lets the gate be reached. */
  lemma {:induction false} HarmlessIsNotAtGate(h: Hasher, s: LiveState)
    requires LedgerOk(h, s.at, s.data) && Harmless(s)
    ensures !s.at.RunGate?
  {
    StageOf(h, s.at, s.data);
  }

  lemma {:induction false} HarmlessRuns(h: Hasher, cfg: Config, s: LiveState, a: Answer)
    requires LedgerOk(h, s.at, s.data) && Harmless(s)
    ensures Perform(h, cfg, s.at, s.data, a).world.runs == []
  {
    HarmlessIsNotAtGate(h, s);
    OthersKeepRuns(h, cfg, s.at, s.data, a);
  }

  lemma {:induction false} StaysHarmless(h: Hasher, cfg: Config, s: LiveState, i: Input)
    requires Inv(h, s) && Harmless(s)
    requires i.Click? ==> i.d.verb == Deny
    ensures Harmless(Respond(h, cfg, s, i))
  {
    if i.Work? {
      HarmlessRuns(h, cfg, s, i.a);
      EndsStayEnds(h, cfg, s, i.a);
      FrameDecision(h, cfg, s.at, s.data, i.a);
      FrameSample(h, cfg, s.at, s.data, i.a);
    }
  }

  lemma {:induction false} HarmlessForever(h: Hasher, cfg: Config, s: LiveState, inputs: seq<Input>)
    requires Inv(h, s) && Harmless(s) && NoApproval(inputs)
    ensures Steps(h, cfg, s, inputs).data.world.runs == []
    decreases |inputs|
  {
    if inputs == [] {
    } else {
      assert inputs[0] in inputs;
      StaysHarmless(h, cfg, s, inputs[0]);
      NextInv(h, cfg, s, inputs[0]);
      HarmlessForever(h, cfg, Respond(h, cfg, s, inputs[0]), inputs[1..]);
    }
  }

  /** An uneventful answer: everything is up, nothing throws, the clock reads now. */
  function Calm(now: real): Answer {
    Answer(NoFault, now, true, Some(0.0), Some(("a1", Content(Restart, "orders", map[]))),
           ExecutorCall("fake", "restart", Returned(Outcome(true, None, None, ""))), None)
  }

  lemma {:induction false} CalmStep(h: Hasher, cfg: Config, s: LiveState, now: real)
    ensures var p, d := s.at, s.data;
            var d' := Perform(h, cfg, p, d, Calm(now));
            Steps(h, cfg, s, [Work(Calm(now))])
              == LiveState(Flow(p, CuesOf(p, d, Calm(now), |d'.world.runs| > |d.world.runs|)),
                           Shows(p, s.shown), s.phases + Emits(p), d')
  {
    var x := Work(Calm(now));
    assert [x][1..] == [];
    assert Steps(h, cfg, Respond(h, cfg, s, x), []) == Respond(h, cfg, s, x);
  }

  lemma {:induction false} InTimeRuns(h: Hasher, cfg: Config, d: Data, call: ExecutorCall)
    requires Cleared(h, d)
    ensures ThroughGate(h, cfg, d, d.expiresAt, call).world.runs != []
  {
    GateLedger(h, cfg, d, d.expiresAt, call);
    GateLeaves(h, ThroughGate(h, cfg, d, d.expiresAt, call), d.expiresAt, call);
  }

  lemma {:induction false} GateRuns(h: Hasher, cfg: Config, s: LiveState)
    requires s.at.RunGate? && Cleared(h, s.data)
    ensures Steps(h, cfg, s, [Work(Calm(s.data.expiresAt))]).data.world.runs != []
  {
    var a := Calm(s.data.expiresAt);
    CalmStep(h, cfg, s, s.data.expiresAt);
    RunGateLeads(h, cfg, s.at, s.data, a);
    InTimeRuns(h, cfg, s.data, a.call);
  }

  lemma {:induction false} ExecutingRuns(h: Hasher, cfg: Config, s: LiveState) returns (more: seq<Input>)
    requires s.at.EmitExecuting? && Cleared(h, s.data)
    ensures NoApproval(more) && Steps(h, cfg, s, more).data.world.runs != []
  {
    var x := Work(Calm(s.data.expiresAt));
    CalmStep(h, cfg, s, s.data.expiresAt);
    GateRuns(h, cfg, Steps(h, cfg, s, [x]));
    StepsAppend(h, cfg, s, [x], [x]);
    more := [x] + [x];
  }

  lemma {:induction false} ApprovalInHandRuns(h: Hasher, cfg: Config, s: LiveState) returns (more: seq<Input>)
    requires LedgerOk(h, s.at, s.data) && ApprovalInHand(s)
    ensures NoApproval(more) && Steps(h, cfg, s, more).data.world.runs != []
  {
    if s.at.EmitExecuting? {
      more := ExecutingRuns(h, cfg, s);
    } else {
      var x := Work(Calm(s.data.expiresAt));
      CalmStep(h, cfg, s, s.data.expiresAt);
      VerdictLedger(h, s.data, s.data.sample.value);
      var rest := ExecutingRuns(h, cfg, Steps(h, cfg, s, [x]));
      StepsAppend(h, cfg, s, [x], rest);
      more := [x] + rest;
    }
  }

  lemma {:induction false} EighthPoints(p: Point)
    requires EnteredAt(p, 8)
    ensures EndPoint(p) || BeforeSample(p) || p.JournalVerdict? || p.EmitExecuting?
  {}

  lemma {:induction false} LastAwaiting(s: LiveState)
    requires PhasesOk(s.phases, s.at) && s.phases != [] && s.phases[|s.phases| - 1] == AwaitingApproval
    ensures |s.phases| == 8 && EnteredAt(s.at, 8)
  {
    assert Rank(s.phases[|s.phases| - 1]) == 7;
  }

  lemma {:induction false} AwaitingIsEighth(h: Hasher, s: LiveState)
    requires Inv(h, s) && AwaitingDecision(s)
    ensures s.data.world.runs == []
    ensures EndPoint(s.at) || BeforeSample(s.at) || s.at.JournalVerdict? || s.at.EmitExecuting?
  {
    if s.at.Handler? && Rank(AwaitingApproval) == |s.phases| {
    } else {
      LastAwaiting(s);
      EighthPoints(s.at);
    }
  }

  lemma {:induction false} EighthIsAwaiting(h: Hasher, s: LiveState)
    requires Inv(h, s) && !s.at.Handler? && EnteredAt(s.at, 8) && !EndPoint(s.at)
    ensures |s.phases| == 8 ==> AwaitingDecision(s)
  {
    if |s.phases| == 8 { assert Rank(s.phases[7]) == 7; }
  }

  /** Short of another approval, an acknowledged denial rules execution out if and only if the run
      thread does not already hold an approval it has read. */
  lemma {:induction false} DenialStandsUntilOverruled(h: Hasher, cfg: Config, inputs: seq<Input>, d: Decision)
    requires d.verb == Deny && Decide(After(h, cfg, inputs), d).1
    ensures var s := After(h, cfg, inputs);
            var t := Decide(s, d).0;
            (forall more :: NoApproval(more) ==> Steps(h, cfg, t, more).data.world.runs == []) <==> !ApprovalInHand(s)
  {
    Always(h, cfg, inputs);
    var s := After(h, cfg, inputs);
    var t := Decide(s, d).0;
    NextInv(h, cfg, s, Input.Click(d));
    AwaitingIsEighth(h, s);
    if ApprovalInHand(s) {
      var more := ApprovalInHandRuns(h, cfg, t);
    } else {
      forall more | NoApproval(more) ensures Steps(h, cfg, t, more).data.world.runs == [] {
        HarmlessForever(h, cfg, t, more);
      }
    }
  }

  /** Calm operations left before the thread waits for a decision. */
  function Ahead(p: Point): int {
    match p
    case EmitPreflight => 19
    case CheckPreflight => 18
    case EmitBooting => 17
    case CheckRunning => 16
    case AwaitRunning(left) => if left > 0 then 16 else -1
    case AwaitIngest(left) => if left > 0 then 15 else -1
    case SweepResidue => 14
    case EmitBaseline => 13
    case WaitBaseline => 12
    case EmitInjecting => 11
    case Inject => 10
    case EmitSoak => 9
    case WaitSoak => 8
    case EmitInvestigating => 7
    case Investigate => 6
    case EmitReport => 5
    case Propose => 4
    case Announce => 3
    case EmitAwaiting => 2
    case SetDeadline => 1
    case AwaitDecision => 0
    case CheckAbort => -1
    case ReadWhetherDecided => -1
    case ReadDecision => -1
    case JournalVerdict => -1
    case EmitExecuting => -1
    case RunGate => -1
    case EmitRecovering => -1
    case PollRecovery(_) => -1
    case EmitDone => -1
    case Handler(_) => -1
    case Finally => -1
    case Finished => -1
  }

  lemma {:induction false} CalmAdvances(p: Point, c: Cues)
    requires Ahead(p) > 0 && c.ok && c.flowing && c.due && !c.aborted
    ensures Ahead(Flow(p, c)) == Ahead(p) - 1
  {}

  lemma {:induction false} AfterOneMore(h: Hasher, cfg: Config, inputs: seq<Input>, i: Input)
    ensures After(h, cfg, inputs + [i]) == Respond(h, cfg, After(h, cfg, inputs), i)
  {
    StepsAppend(h, cfg, Initial(), inputs, [i]);
    var s := After(h, cfg, inputs);
    assert [i][1..] == [];
    assert Steps(h, cfg, Respond(h, cfg, s, i), []) == Respond(h, cfg, s, i);
  }

  lemma {:induction false} CalmNext(h: Hasher, cfg: Config, s: LiveState)
    requires Ahead(s.at) > 0 && !s.data.aborted
    ensures var t := Respond(h, cfg, s, Work(Calm(s.data.deadline)));
            Ahead(t.at) == Ahead(s.at) - 1 && !t.data.aborted
  {
    var a := Calm(s.data.deadline);
    var d := Perform(h, cfg, s.at, s.data, a);
    OperateThrough(h, cfg, s, a);
    CalmAdvances(s.at, CuesOf(s.at, s.data, a, |d.world.runs| > |s.data.world.runs|));
    FrameAborted(h, cfg, s.at, s.data, a);
  }

  lemma {:induction false} ReachTheWait(h: Hasher, cfg: Config, inputs: seq<Input>) returns (more: seq<Input>)
    requires Ahead(After(h, cfg, inputs).at) >= 0 && !After(h, cfg, inputs).data.aborted
    ensures After(h, cfg, more).at.AwaitDecision? && !After(h, cfg, more).data.aborted
    decreases Ahead(After(h, cfg, inputs).at)
  {
    var s := After(h, cfg, inputs);
    if Ahead(s.at) == 0 {
      WaitIsZero(s.at);
      more := inputs;
    } else {
      AfterOneMore(h, cfg, inputs, Work(Calm(s.data.deadline)));
      CalmNext(h, cfg, s);
      more := ReachTheWait(h, cfg, inputs + [Work(Calm(s.data.deadline))]);
    }
  }

  lemma {:induction false} WaitIsZero(p: Point)
    requires Ahead(p) == 0
    ensures p.AwaitDecision?
  {}

  /** Operations left before the thread has read a decision, once it is open to one. */
  function ToRead(p: Point): int {
    if p.SetDeadline? then 5 else if p.AwaitDecision? then 4 else if p.CheckAbort? then 3
    else if p.ReadWhetherDecided? then 2 else if p.ReadDecision? then 1 else 0
  }

  predicate Approved(s: LiveState) {
    && (ToRead(s.at) > 2 ==> !s.data.aborted)
    && s.data.ready && AwaitingDecision(s)
    && s.data.decision.Some? && s.data.decision.value.verb == Approve
  }

  lemma {:induction false} ReadingFlows(p: Point, c: Cues)
    requires ToRead(p) > 0 && c.ready && c.decided && (ToRead(p) > 2 ==> !c.aborted)
    ensures ToRead(Flow(p, c)) == ToRead(p) - 1 && (p.ReadDecision? ==> Flow(p, c).JournalVerdict?)
    ensures Emits(p) == []
  {}

  lemma {:induction false} CalmReads(h: Hasher, cfg: Config, s: LiveState)
    requires Approved(s) && ToRead(s.at) > 0
    ensures var t := Respond(h, cfg, s, Work(Calm(0.0)));
            && Approved(t) && ToRead(t.at) == ToRead(s.at) - 1
            && (s.at.ReadDecision? ==> ApprovalInHand(t))
  {
    var a := Calm(0.0);
    var d := Perform(h, cfg, s.at, s.data, a);
    OperateThrough(h, cfg, s, a);
    ReadingFlows(s.at, CuesOf(s.at, s.data, a, |d.world.runs| > |s.data.world.runs|));
    FrameDecision(h, cfg, s.at, s.data, a);
    FrameAborted(h, cfg, s.at, s.data, a);
    FrameReady(h, cfg, s.at, s.data, a);
    FrameSample(h, cfg, s.at, s.data, a);
  }

  lemma {:induction false} ReadApproval(h: Hasher, cfg: Config, s: LiveState) returns (more: seq<Input>)
    requires Approved(s) && ToRead(s.at) > 0
    ensures var t := Steps(h, cfg, s, more); AwaitingDecision(t) && ApprovalInHand(t)
    decreases ToRead(s.at)
  {
    var x := Work(Calm(0.0));
    CalmReads(h, cfg, s);
    assert [x][1..] == [] && Steps(h, cfg, Respond(h, cfg, s, x), []) == Respond(h, cfg, s, x);
    more := [x];
    if !s.at.ReadDecision? {
      var rest := ReadApproval(h, cfg, Respond(h, cfg, s, x));
      StepsAppend(h, cfg, s, [x], rest);
      more := [x] + rest;
    }
  }

  /** The unlucky case does occur: some run acknowledges a denial and executes all the same. */
  lemma {:induction false} AnAcknowledgedDenialCanBeLost(h: Hasher, cfg: Config) returns (inputs: seq<Input>, more: seq<Input>)
    ensures var s := After(h, cfg, inputs);
            var no := Decision(Deny, "second", "stop");
            && Decide(s, no).1
            && NoApproval(more)
            && Steps(h, cfg, Decide(s, no).0, more).data.world.runs != []
  {
    var start := ReachTheWait(h, cfg, []);
    Always(h, cfg, start);
    var s0 := After(h, cfg, start);
    EighthIsAwaiting(h, s0);
    var yes := Input.Click(Decision(Approve, "first", ""));
    AfterOneMore(h, cfg, start, yes);
    var reading := ReadApproval(h, cfg, After(h, cfg, start + [yes]));
    inputs := (start + [yes]) + reading;
    StepsAppend(h, cfg, Initial(), start + [yes], reading);
    var s := After(h, cfg, inputs);
    var no := Decision(Deny, "second", "stop");
    Always(h, cfg, inputs);
    NextInv(h, cfg, s, Input.Click(no));
    more := ApprovalInHandRuns(h, cfg, Decide(s, no).0);
  }

  // ----- an abort can come too late as well -----

  /** Past the abort check, and not on the way to journaling a denial. */
  predicate MayStillRun(s: LiveState) {
    s.at.ReadWhetherDecided? || s.at.ReadDecision? || s.at.RunGate? || ApprovalInHand(s)
  }

  lemma {:induction false} FlowAborted(p: Point, c: Cues)
    requires c.aborted && !p.ReadWhetherDecided? && !p.ReadDecision? && !p.EmitExecuting?
    requires p.JournalVerdict? ==> c.denied
    ensures var q := Flow(p, c);
            !q.ReadWhetherDecided? && !q.ReadDecision? && !q.JournalVerdict? && !q.EmitExecuting? && !q.RunGate?
  {}

  lemma {:induction false} AbortedWork(h: Hasher, cfg: Config, s: LiveState, a: Answer)
    requires SampleOk(s.at, s.data) && s.data.aborted && !MayStillRun(s)
    ensures var t := Operate(h, cfg, s, a);
            t.data.aborted && !MayStillRun(t) && |t.data.world.runs| == |s.data.world.runs|
  {
    var d := Perform(h, cfg, s.at, s.data, a);
    var c := CuesOf(s.at, s.data, a, |d.world.runs| > |s.data.world.runs|);
    FlowAborted(s.at, c);
    FrameAborted(h, cfg, s.at, s.data, a);
    FrameSample(h, cfg, s.at, s.data, a);
    RunsGrowByOne(h, cfg, s.at, s.data, a);
  }

  ghost predicate Quelled(h: Hasher, s: LiveState) {
    Inv(h, s) && s.data.aborted && !MayStillRun(s)
  }

  lemma {:induction false} QuelledStep(h: Hasher, cfg: Config, s: LiveState, i: Input)
    requires Quelled(h, s)
    ensures Quelled(h, Respond(h, cfg, s, i)) && |Respond(h, cfg, s, i).data.world.runs| == |s.data.world.runs|
  {
    NextInv(h, cfg, s, i);
    if i.Work? { AbortedWork(h, cfg, s, i.a); }
  }

  lemma {:induction false} AbortedForever(h: Hasher, cfg: Config, s: LiveState, inputs: seq<Input>)
    requires Quelled(h, s)
    ensures |Steps(h, cfg, s, inputs).data.world.runs| == |s.data.world.runs|
    decreases |inputs|
  {
    if inputs == [] {
    } else {
      QuelledStep(h, cfg, s, inputs[0]);
      AbortedForever(h, cfg, Respond(h, cfg, s, inputs[0]), inputs[1..]);
    }
  }

  lemma {:induction false} StillRuns(h: Hasher, cfg: Config, s: LiveState) returns (more: seq<Input>)
    requires Inv(h, s) && MayStillRun(s)
    ensures s.data.world.runs == [] && Steps(h, cfg, s, more).data.world.runs != []
  {
    if ApprovalInHand(s) {
      more := ApprovalInHandRuns(h, cfg, s);
    } else if s.at.RunGate? {
      GateRuns(h, cfg, s);
      more := [Work(Calm(s.data.expiresAt))];
    } else {
      more := ApprovedLateRuns(h, cfg, s);
    }
  }

  /** The thread has not yet read a decision and no abort will stop it before it does. */
  predicate StillReads(s: LiveState) {
    || s.at.ReadWhetherDecided? || s.at.ReadDecision?
    || ((s.at.SetDeadline? || s.at.AwaitDecision? || s.at.CheckAbort?) && !s.data.aborted)
  }

  /** Until then an approval can be clicked, and is read. */
  lemma {:induction false} LateApproval(h: Hasher, s: LiveState, d: Decision)
    requires Inv(h, s) && StillReads(s) && d.verb == Approve
    ensures Decide(s, d).1 && Approved(Decide(s, d).0)
  {
    EighthIsAwaiting(h, s);
  }

  lemma {:induction false} ApprovedLateRuns(h: Hasher, cfg: Config, s: LiveState) returns (more: seq<Input>)
    requires Inv(h, s) && StillReads(s)
    ensures Steps(h, cfg, s, more).data.world.runs != []
  {
    var yes := Input.Click(Decision(Approve, "late", ""));
    var t := Respond(h, cfg, s, yes);
    LateApproval(h, s, yes.d);
    NextInv(h, cfg, s, yes);
    var rest := ReadAndRun(h, cfg, t);
    more := [yes] + rest;
    assert more[0] == yes && more[1..] == rest;
  }

  lemma {:induction false} ReadAndRun(h: Hasher, cfg: Config, s: LiveState) returns (more: seq<Input>)
    requires Inv(h, s) && Approved(s) && ToRead(s.at) > 0
    ensures Steps(h, cfg, s, more).data.world.runs != []
  {
    var reading := ReadApproval(h, cfg, s);
    StepsInv(h, cfg, s, reading);
    var running := ApprovalInHandRuns(h, cfg, Steps(h, cfg, s, reading));
    StepsAppend(h, cfg, s, reading, running);
    more := reading + running;
  }

  /** An abort rules out any further execution, whatever follows, if and only if the run thread is
      not past its abort check with an approval read or still to be read. */
  lemma {:induction false} AbortIsFinalIff(h: Hasher, cfg: Config, inputs: seq<Input>)
    ensures var s := After(h, cfg, inputs);
            var t := RequestAbort(s);
            (forall more :: |Steps(h, cfg, t, more).data.world.runs| == |s.data.world.runs|) <==> !MayStillRun(s)
  {
    Always(h, cfg, inputs);
    var s := After(h, cfg, inputs);
    var t := RequestAbort(s);
    NextInv(h, cfg, s, Input.Abort);
    if MayStillRun(s) {
      var more := StillRuns(h, cfg, t);
    } else {
      forall more ensures |Steps(h, cfg, t, more).data.world.runs| == |s.data.world.runs| {
        AbortedForever(h, cfg, t, more);
      }
    }
  }

  // ----- when an acknowledged denial is final, whatever follows -----

  /** Nothing can run any more: the run is ending, a denial is about to be journaled, or an abort
      will be seen before a decision is read. */
  ghost predicate Shut(h: Hasher, s: LiveState) {
    && Inv(h, s) && s.data.world.runs == []
    && (|| EndPoint(s.at)
        || (s.at.JournalVerdict? && !ApprovalInHand(s))
        || (s.data.aborted && !MayStillRun(s)))
  }

  lemma {:induction false} DenialIsJournaled(h: Hasher, cfg: Config, s: LiveState, a: Answer)
    requires s.at.JournalVerdict? && s.data.sample.Some? && !ApprovalInHand(s)
    ensures EndPoint(Operate(h, cfg, s, a).at)
  {}

  lemma {:induction false} ShutStep(h: Hasher, cfg: Config, s: LiveState, i: Input)
    requires Shut(h, s)
    ensures Shut(h, Respond(h, cfg, s, i))
  {
    NextInv(h, cfg, s, i);
    if i.Work? {
      if EndPoint(s.at) || s.at.JournalVerdict? {
        OthersKeepRuns(h, cfg, s.at, s.data, i.a);
        if EndPoint(s.at) { EndsStayEnds(h, cfg, s, i.a); } else { DenialIsJournaled(h, cfg, s, i.a); }
      } else {
        AbortedWork(h, cfg, s, i.a);
      }
    }
  }

  lemma {:induction false} ShutForever(h: Hasher, cfg: Config, s: LiveState, inputs: seq<Input>)
    requires Shut(h, s)
    ensures Steps(h, cfg, s, inputs).data.world.runs == []
    decreases |inputs|
  {
    if inputs == [] {
    } else {
      ShutStep(h, cfg, s, inputs[0]);
      ShutForever(h, cfg, Respond(h, cfg, s, inputs[0]), inputs[1..]);
    }
  }

  lemma {:induction false} AwaitingReadsOrIsShut(h: Hasher, s: LiveState)
    requires Inv(h, s) && AwaitingDecision(s)
    ensures StillReads(s) || ApprovalInHand(s) || Shut(h, s)
  {
    AwaitingIsEighth(h, s);
    if !EndPoint(s.at) && !s.at.JournalVerdict? && !s.at.EmitExecuting? {
      LastAwaiting(s);
      UnreadPoints(s.at);
    }
  }

  lemma {:induction false} UnreadPoints(p: Point)
    requires EnteredAt(p, 8) && BeforeSample(p)
    ensures EndPoint(p) || p.SetDeadline? || p.AwaitDecision? || p.CheckAbort? || p.ReadWhetherDecided? || p.ReadDecision?
  {}

  /** A denial that was answered "true" rules execution out, whatever follows, if and only if the
      run thread neither holds an approval it has read nor is still going to read the last click,
      which a later approval then is. The source's answer does not tell these cases apart. */
  lemma {:induction false} AcknowledgedDenialIsFinalIff(h: Hasher, cfg: Config, inputs: seq<Input>, d: Decision)
    requires d.verb == Deny && Decide(After(h, cfg, inputs), d).1
    ensures var s := After(h, cfg, inputs);
            var t := Decide(s, d).0;
            (forall more :: Steps(h, cfg, t, more).data.world.runs == []) <==> !ApprovalInHand(s) && !StillReads(s)
  {
    Always(h, cfg, inputs);
    var s := After(h, cfg, inputs);
    var t := Decide(s, d).0;
    NextInv(h, cfg, s, Input.Click(d));
    if ApprovalInHand(s) {
      var more := ApprovalInHandRuns(h, cfg, t);
    } else if StillReads(s) {
      var more := ApprovedLateRuns(h, cfg, t);
    } else {
      AwaitingReadsOrIsShut(h, t);
      forall more ensures Steps(h, cfg, t, more).data.world.runs == [] {
        ShutForever(h, cfg, t, more);
      }
    }
  }

  /** The second unlucky case occurs too: a denial acknowledged while the thread waits is
      overwritten by a later approval, and the executor runs. */
  lemma {:induction false} AnAcknowledgedDenialCanBeOverruled(h: Hasher, cfg: Config)
    returns (inputs: seq<Input>, more: seq<Input>)
    ensures var s := After(h, cfg, inputs);
            var no := Decision(Deny, "first", "stop");
            && s.at.AwaitDecision? && !ApprovalInHand(s) && Decide(s, no).1
            && Steps(h, cfg, Decide(s, no).0, more).data.world.runs != []
  {
    inputs := ReachTheWait(h, cfg, []);
    Always(h, cfg, inputs);
    var s := After(h, cfg, inputs);
    EighthIsAwaiting(h, s);
    var no := Decision(Deny, "first", "stop");
    NextInv(h, cfg, s, Input.Click(no));
    more := ApprovedLateRuns(h, cfg, Decide(s, no).0);
  }

  // ----- the deadline is final -----

  /** Whenever the thread does something, the clock reads later than t. */
  predicate AllLater(inputs: seq<Input>, t: real) {
    forall i :: i in inputs && i.Work? ==> i.a.now > t
  }

  /** The action has been proposed, or the run is ending. */
  ghost predicate ProposedOrEnding(h: Hasher, s: LiveState) {
    LedgerOk(h, s.at, s.data) && Stage(s.at) != 0
  }

  lemma {:induction false} StaysProposed(p: Point, c: Cues)
    requires Stage(p) != 0
    ensures Stage(Flow(p, c)) != 0
  {
    FlowStage(p, c);
  }

  lemma {:induction false} GateAfterTheDeadline(h: Hasher, cfg: Config, d: Data, now: real, call: ExecutorCall)
    requires Cleared(h, d) && now > d.expiresAt
    ensures ThroughGate(h, cfg, d, now, call).world.runs == []
  {
    GateLedger(h, cfg, d, now, call);
    GateLeaves(h, ThroughGate(h, cfg, d, now, call), now, call);
  }

  lemma {:induction false} LateRuns(h: Hasher, cfg: Config, p: Point, d: Data, a: Answer)
    requires LedgerOk(h, p, d) && a.now > d.expiresAt
    ensures Perform(h, cfg, p, d, a).world.runs == d.world.runs
  {
    if p.RunGate? {
      StageOf(h, p, d);
      RunGateLeads(h, cfg, p, d, a);
      GateAfterTheDeadline(h, cfg, d, a.now, a.call);
    } else {
      OthersKeepRuns(h, cfg, p, d, a);
    }
  }

  lemma {:induction false} LateWork(h: Hasher, cfg: Config, s: LiveState, a: Answer)
    requires ProposedOrEnding(h, s) && a.now > s.data.expiresAt
    ensures var t := Operate(h, cfg, s, a);
            && t.data.world.runs == s.data.world.runs
            && t.data.expiresAt == s.data.expiresAt && Stage(t.at) != 0
  {
    if !Interrupted(s.at, a.fault) {
      var d := Perform(h, cfg, s.at, s.data, a);
      StaysProposed(s.at, CuesOf(s.at, s.data, a, |d.world.runs| > |s.data.world.runs|));
      FrameDeadline(h, cfg, s.at, s.data, a);
      LateRuns(h, cfg, s.at, s.data, a);
    }
  }

  /** Proposed with this deadline, and so many executions so far. */
  ghost predicate Held(h: Hasher, s: LiveState, deadline: real, runs: nat) {
    Inv(h, s) && Stage(s.at) != 0 && s.data.expiresAt == deadline && |s.data.world.runs| == runs
  }

  lemma {:induction false} LateStep(h: Hasher, cfg: Config, s: LiveState, i: Input, deadline: real, runs: nat)
    requires Held(h, s, deadline, runs) && (i.Work? ==> i.a.now > deadline)
    ensures Held(h, Respond(h, cfg, s, i), deadline, runs)
  {
    NextInv(h, cfg, s, i);
    if i.Work? { LateWork(h, cfg, s, i.a); }
  }

  lemma {:induction false} LateSteps(h: Hasher, cfg: Config, s: LiveState, more: seq<Input>, deadline: real, runs: nat)
    requires Held(h, s, deadline, runs) && AllLater(more, deadline)
    ensures Held(h, Steps(h, cfg, s, more), deadline, runs)
    decreases |more|
  {
    if more == [] {
    } else {
      assert more[0] in more;
      LateStep(h, cfg, s, more[0], deadline, runs);
      LateSteps(h, cfg, Respond(h, cfg, s, more[0]), more[1..], deadline, runs);
    }
  }

  /** Once the action is proposed and the clock is past its deadline for good, nothing more is
      executed, whatever is clicked: not even an approval acknowledged after the wait timed out. */
  lemma {:induction false} NothingRunsAfterTheDeadline(h: Hasher, cfg: Config, inputs: seq<Input>, more: seq<Input>)
    requires var s := After(h, cfg, inputs); Stage(s.at) != 0 && AllLater(more, s.data.expiresAt)
    ensures |After(h, cfg, inputs + more).data.world.runs| == |After(h, cfg, inputs).data.world.runs|
  {
    Always(h, cfg, inputs);
    StepsAppend(h, cfg, Initial(), inputs, more);
    var s := After(h, cfg, inputs);
    LateSteps(h, cfg, s, more, s.data.expiresAt, |s.data.world.runs|);
  }
}
