/** The phases a live run enters, in the documented order. */
module LivePhases {
  import opened Common
  import opened Gate
  import opened LiveRun

  /** The place of a phase in the documented order. */
  function Rank(p: Phase): int {
    match p
    case Preflight => 0
    case Booting => 1
    case Baseline => 2
    case Injecting => 3
    case Soak => 4
    case Investigating => 5
    case Report => 6
    case AwaitingApproval => 7
    case Executing => 8
    case Recovering => 9
    case Done => -1
    case Failed => -1
    case Cancelled => -1
  }

  predicate IsTerminal(p: Phase) {
    Rank(p) < 0
  }

  /** How many phases have been entered on arrival at p. */
  predicate EnteredAt(p: Point, k: int) {
    match p
    case EmitPreflight => k == 0
    case CheckPreflight => k == 1
    case EmitBooting => k == 1
    case CheckRunning => k == 2
    case AwaitRunning(_) => k == 2
    case AwaitIngest(_) => k == 2
    case SweepResidue => k == 2
    case EmitBaseline => k == 2
    case WaitBaseline => k == 3
    case EmitInjecting => k == 3
    case Inject => k == 4
    case EmitSoak => k == 4
    case WaitSoak => k == 5
    case EmitInvestigating => k == 5
    case Investigate => k == 6
    case EmitReport => k == 6
    case Propose => k == 7
    case Announce => k == 7
    case EmitAwaiting => k == 7
    case SetDeadline => k == 8
    case AwaitDecision => k == 8
    case CheckAbort => k == 8
    case ReadWhetherDecided => k == 8
    case ReadDecision => k == 8
    case JournalVerdict => k == 8
    case EmitExecuting => k == 8
    case RunGate => k == 9
    case EmitRecovering => k == 9
    case PollRecovery(_) => k == 10
    case EmitDone => k == 8 || k == 10
    case Handler(_) => k >= 0
    case Finally => k > 0
    case Finished => k > 0
  }

  ghost predicate InOrder(phases: seq<Phase>, n: nat) {
    n <= |phases| && forall i :: 0 <= i < n ==> Rank(phases[i]) == i
  }

  ghost predicate PhasesOk(phases: seq<Phase>, at: Point) {
    && EnteredAt(at, |phases|)
    && if at.Finally? || at.Finished? then
         InOrder(phases, |phases| - 1) && IsTerminal(phases[|phases| - 1])
       else InOrder(phases, |phases|)
  }

  lemma {:induction false} FlowCounts(p: Point, c: Cues, k: nat)
    requires EnteredAt(p, k)
    ensures EnteredAt(Flow(p, c), k + |Emits(p)|)
  {}

  lemma {:induction false} EmitsInTurn(p: Point, k: nat)
    requires EnteredAt(p, k) && |Emits(p)| > 0 && !EndPoint(p)
    ensures Rank(Emits(p)[0]) == k
  {}

  lemma {:induction false} KeepPhases(phases: seq<Phase>, p: Point, q: Point)
    requires PhasesOk(phases, p) && Emits(p) == [] && EnteredAt(q, |phases|)
    requires EndPoint(p) <==> q.Finally? || q.Finished?
    requires p.Finally? || p.Finished? <==> q.Finished?
    ensures PhasesOk(phases, q)
  {
    EndsEmit(p);
  }

  lemma {:induction false} EndsEmit(p: Point)
    ensures p.EmitDone? || p.Handler? ==> Emits(p) != [] && IsTerminal(Emits(p)[0])
    ensures |Emits(p)| <= 1
  {}

  lemma {:induction false} EnterPhase(phases: seq<Phase>, p: Point, q: Point, phase: Phase)
    requires PhasesOk(phases, p) && Emits(p) == [phase] && EnteredAt(q, |phases| + 1)
    requires EndPoint(p) <==> q.Finally? || q.Finished?
    requires p.Finally? || p.Finished? <==> q.Finished?
    ensures PhasesOk(phases + [phase], q)
  {
    EndsEmit(p);
    if !EndPoint(p) { EmitsInTurn(p, |phases|); }
  }

  lemma {:induction false} ThrownPhases(phases: seq<Phase>, p: Point)
    requires PhasesOk(phases, p) && !p.Finally? && !p.Finished?
    ensures PhasesOk(phases, Handler(false))
  {}

  lemma {:induction false} FlowPhases(phases: seq<Phase>, p: Point, c: Cues)
    requires PhasesOk(phases, p)
    ensures PhasesOk(phases + Emits(p), Flow(p, c))
  {
    FlowCounts(p, c, |phases|);
    FlowEnds(p, c);
    EndsEmit(p);
    if Emits(p) == [] {
      assert phases + Emits(p) == phases;
      KeepPhases(phases, p, Flow(p, c));
    } else {
      EnterPhase(phases, p, Flow(p, c), Emits(p)[0]);
      assert Emits(p) == [Emits(p)[0]];
    }
  }

  lemma {:induction false} LandPhases(phases: seq<Phase>, p: Point, c: Cues, fault: Fault)
    requires PhasesOk(phases, p)
    ensures PhasesOk(phases + Emits(p), Land(p, c, fault))
    ensures !EndPoint(p) ==> PhasesOk(phases, Handler(false))
  {
    FlowPhases(phases, p, c);
    if !EndPoint(p) {
      ThrownPhases(phases, p);
      FlowEnds(p, c);
      ThrownPhases(phases + Emits(p), Flow(p, c));
    }
  }

  lemma {:induction false} OperatePhases(h: Hasher, cfg: Config, s: LiveState, a: Answer)
    requires PhasesOk(s.phases, s.at)
    ensures PhasesOk(Operate(h, cfg, s, a).phases, Operate(h, cfg, s, a).at)
  {
    var w := Perform(h, cfg, s.at, s.data, a).world;
    LandPhases(s.phases, s.at, CuesOf(s.at, s.data, a, |w.runs| > |s.data.world.runs|), a.fault);
  }

  // ----- the phase shown -----

  /** The phase shown is the last one entered, or the next one if an operation threw midway. */
  predicate ShownOk(s: LiveState) {
    || s.shown == (if s.phases == [] then None else Some(s.phases[|s.phases| - 1]))
    || (s.at.Handler? && s.shown.Some? && Rank(s.shown.value) == |s.phases|)
  }

  lemma {:induction false} OperateShown(h: Hasher, cfg: Config, s: LiveState, a: Answer)
    requires PhasesOk(s.phases, s.at) && ShownOk(s)
    ensures ShownOk(Operate(h, cfg, s, a))
  {
    HandlerEmits(s.at);
    if Interrupted(s.at, a.fault) {
      MidwayShown(s, a);
      OperateInterrupted(h, cfg, s, a);
    } else {
      var t := Operate(h, cfg, s, a);
      assert t.shown == Shows(s.at, s.shown) && t.phases == s.phases + Emits(s.at);
      LandedShown(s);
    }
  }

  lemma {:induction false} MidwayShown(s: LiveState, a: Answer)
    requires PhasesOk(s.phases, s.at) && ShownOk(s) && Interrupted(s.at, a.fault)
    ensures ShownOk(LiveState(Handler(false), ShownWhenThrown(s, a.fault), s.phases, s.data))
  {
    if Emits(s.at) != [] { EmitsInTurn(s.at, |s.phases|); }
  }

  lemma {:induction false} LandedShown(s: LiveState)
    requires ShownOk(s) && (s.at.Handler? ==> Emits(s.at) != []) && |Emits(s.at)| <= 1
    ensures var phases := s.phases + Emits(s.at);
            Shows(s.at, s.shown) == if phases == [] then None else Some(phases[|phases| - 1])
  {
    if Emits(s.at) == [] { assert s.phases + Emits(s.at) == s.phases; }
  }

  lemma {:induction false} HandlerEmits(p: Point)
    ensures p.Handler? ==> Emits(p) != []
    ensures |Emits(p)| <= 1
  {}

  lemma {:induction false} GateIsNinth(phases: seq<Phase>, p: Point)
    requires PhasesOk(phases, p) && p.RunGate?
    ensures |phases| > Rank(Phase.Executing)
  {}

  lemma {:induction false} OperateRunPhase(h: Hasher, cfg: Config, s: LiveState, a: Answer)
    requires PhasesOk(s.phases, s.at)
    requires s.data.world.runs != [] ==> |s.phases| > Rank(Phase.Executing)
    ensures Operate(h, cfg, s, a).data.world.runs != [] ==> |Operate(h, cfg, s, a).phases| > Rank(Phase.Executing)
  {
    if Interrupted(s.at, a.fault) {
      OperateInterrupted(h, cfg, s, a);
    } else {
      OperateThrough(h, cfg, s, a);
      if s.at.RunGate? { GateIsNinth(s.phases, s.at); } else { OthersKeepRuns(h, cfg, s.at, s.data, a); }
    }
  }

  lemma {:induction false} RankIsPlace(phases: seq<Phase>, n: nat)
    requires InOrder(phases, n)
    ensures phases[..n] <= ORDER
  {
    if n == 0 {
    } else {
      RankIsPlace(phases, n - 1);
      assert Rank(phases[n - 1]) == n - 1;
      assert phases[..n] == phases[..n - 1] + [phases[n - 1]];
    }
  }
}
