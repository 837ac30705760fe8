/** One live incident run (sentinel/api/livelab/machine.py) as a state machine. The run
    thread performs one operation at a time; abort, approve and deny arrive from another
    thread between any two operations, and any operation may throw. */
module LiveRun {
  import opened Common
  import opened Journal
  import opened Gate

  datatype Phase =
    | Preflight | Booting | Baseline | Injecting | Soak | Investigating | Report
    | AwaitingApproval | Executing | Recovering | Done | Failed | Cancelled

  /** The documented order of the phases of a run. */
  const ORDER: seq<Phase> :=
    [Preflight, Booting, Baseline, Injecting, Soak, Investigating, Report,
     AwaitingApproval, Phase.Executing, Recovering]

  const POLLS: nat := 36
  const RECOVERY_POLLS: nat := 12
  const FRESH_S: real := 120.0

  datatype Verb = Approve | Deny

  datatype Decision = Decision(verb: Verb, approver: string, reason: string)

  /** Where the run thread stands; each point is one operation of the source. */
  datatype Point =
    | EmitPreflight | CheckPreflight
    | EmitBooting | CheckRunning | AwaitRunning(left: nat) | AwaitIngest(left: nat)
    | SweepResidue | EmitBaseline | WaitBaseline
    | EmitInjecting | Inject | EmitSoak | WaitSoak
    | EmitInvestigating | Investigate | EmitReport
    | Propose | Announce | EmitAwaiting | SetDeadline | AwaitDecision | CheckAbort | ReadWhetherDecided | ReadDecision
    | JournalVerdict | EmitExecuting | RunGate | EmitRecovering | PollRecovery(left: nat)
    | EmitDone
    | Handler(aborted: bool) | Finally | Finished

  datatype Effect =
    | Swept | Injected
    | AbortRequested | AbortChecked
    | Acknowledged(d: Decision)      // a click the control surface answered "true"
    | Sampled(d: Decision)           // the decision the run thread read
    | Ran                            // the executor was called

  datatype Config = Config(baselineS: real, soakS: real, ttlS: real, recoveredBelow: Option<real>)

  datatype Data = Data(
    aborted: bool,
    ready: bool,
    decision: Option<Decision>,
    sample: Option<Decision>,
    action: Option<SuggestedAction>,
    expiresAt: real,
    deadline: real,
    world: World,
    before: Option<real>,
    recovered: bool,
    trace: seq<Effect>)

  /** `shown` is the phase the control surface tests, `phases` the list of those entered. */
  datatype LiveState = LiveState(at: Point, shown: Option<Phase>, phases: seq<Phase>, data: Data)

  /** Whether an operation throws: before taking any effect, after showing its phase but before
      entering it, or after taking effect. */
  datatype Fault = NoFault | Early | Midway | Late

  /** What the outside world answers to one operation of the run thread. */
  datatype Answer = Answer(
    fault: Fault,
    now: real,
    ok: bool,                              // checks pass, services run
    age: Option<real>,                     // ingest age
    proposal: Option<(string, Content)>,   // the catalog's elected primary action
    call: ExecutorCall,
    health: Option<real>)

  datatype Input = Work(a: Answer) | Abort | Click(d: Decision)

  function Initial(): LiveState {
    LiveState(EmitPreflight, None, [],
              Data(false, false, None, None, None, 0.0, 0.0, World([], []), None, false, []))
  }

  // ----- the control surface --------------------------------------------------------

  // ----- the control surface -----

  predicate AwaitingDecision(s: LiveState) {
    s.shown == Some(AwaitingApproval)
  }

  /** approve and deny: the answer to the caller, and the new state. */
  function Decide(s: LiveState, d: Decision): (LiveState, bool) {
    if !AwaitingDecision(s) then (s, false)
    else (s.(data := s.data.(decision := Some(d), ready := true,
                             trace := s.data.trace + [Acknowledged(d)])), true)
  }

  function RequestAbort(s: LiveState): LiveState {
    s.(data := s.data.(aborted := true, ready := true, trace := s.data.trace + [AbortRequested]))
  }

  // ----- the run thread: what each operation emits, where it goes, what it does ------

  // ----- the run thread: what each operation emits, where it goes, what it does -----

  function Emits(p: Point): seq<Phase> {
    match p
    case EmitPreflight => [Preflight]
    case EmitBooting => [Booting]
    case EmitBaseline => [Baseline]
    case EmitInjecting => [Injecting]
    case EmitSoak => [Soak]
    case EmitInvestigating => [Investigating]
    case EmitReport => [Report]
    case EmitAwaiting => [AwaitingApproval]
    case EmitExecuting => [Phase.Executing]
    case EmitRecovering => [Recovering]
    case EmitDone => [Phase.Done]
    case Handler(aborted) => [if aborted then Cancelled else Phase.Failed]
    case _ => []
  }

  /** What an operation finds. */
  datatype Cues = Cues(
    aborted: bool, ok: bool, flowing: bool, due: bool, ready: bool,
    decided: bool, denied: bool, raised: bool, recovered: bool)

  function Flow(p: Point, c: Cues): Point {
    match p
    case EmitPreflight => CheckPreflight
    case CheckPreflight => if c.ok then EmitBooting else Handler(false)
    case EmitBooting => CheckRunning
    case CheckRunning => if c.ok then AwaitIngest(POLLS) else AwaitRunning(POLLS)
    case AwaitRunning(left) =>
      if left == 0 then Handler(false)
      else if c.aborted then Handler(true)
      else if c.ok then AwaitIngest(POLLS) else AwaitRunning(left - 1)
    case AwaitIngest(left) =>
      if left == 0 then Handler(false)
      else if c.aborted then Handler(true)
      else if c.flowing then SweepResidue else AwaitIngest(left - 1)
    case SweepResidue => EmitBaseline
    case EmitBaseline => WaitBaseline
    case WaitBaseline => if c.aborted then Handler(true) else if c.due then EmitInjecting else WaitBaseline
    case EmitInjecting => Inject
    case Inject => EmitSoak
    case EmitSoak => WaitSoak
    case WaitSoak => if c.aborted then Handler(true) else if c.due then EmitInvestigating else WaitSoak
    case EmitInvestigating => Investigate
    case Investigate => EmitReport
    case EmitReport => Propose
    case Propose => if c.ok then Announce else Handler(false)
    case Announce => EmitAwaiting
    case EmitAwaiting => SetDeadline
    case SetDeadline => AwaitDecision
    case AwaitDecision => if c.ready || c.due then CheckAbort else AwaitDecision
    case CheckAbort => if c.aborted then Handler(true) else ReadWhetherDecided
    case ReadWhetherDecided => if c.decided then ReadDecision else EmitDone
    case ReadDecision => if c.decided then JournalVerdict else Handler(false)
    case JournalVerdict => if c.denied then EmitDone else EmitExecuting
    case EmitExecuting => RunGate
    case RunGate => if c.raised then Handler(false) else EmitRecovering
    case EmitRecovering => PollRecovery(RECOVERY_POLLS)
    case PollRecovery(left) =>
      if left == 0 || c.recovered then EmitDone
      else if c.aborted then Handler(true) else PollRecovery(left - 1)
    case EmitDone => Finally
    case Handler(_) => Finally
    case Finally => Finished
    case Finished => Finished
  }

  function CuesOf(p: Point, d: Data, a: Answer, ranNow: bool): Cues {
    Cues(d.aborted,
         if p.Propose? then a.proposal.Some? else a.ok,
         a.age.Some? && a.age.value <= FRESH_S,
         d.deadline - a.now <= 0.0,
         d.ready,
         d.decision.Some?,
         d.sample.Some? && d.sample.value.verb == Deny,
         ranNow && a.call.attempt.Raised?,
         d.recovered)
  }

  function IsRecovered(cfg: Config, before: Option<real>, value: Option<real>): bool {
    && value.Some?
    && if cfg.recoveredBelow.Some? then value.value < cfg.recoveredBelow.value
       else before.Some? && value.value < before.value / 3.0
  }

  function Action(d: Data): SuggestedAction {
    if d.action.Some? then d.action.value else SuggestedAction("", Content(Restart, "", map[]), "")
  }

  function Log(d: Data, e: Event): Data {
    d.(world := d.world.(log := d.world.log + [e]))
  }

  function Record(d: Data, e: Effect): Data {
    d.(trace := d.trace + [e])
  }

  function Offer(h: Hasher, cfg: Config, d: Data, id: string, content: Content, now: real): Data {
    var action := SuggestedAction(id, content, h(content));
    Log(d, Proposal(action, Some(now + cfg.ttlS))).(action := Some(action), expiresAt := now + cfg.ttlS)
  }

  function Settle(d: Data, sample: Decision): Data {
    if sample.verb == Deny then Log(d, Denial(Action(d).id, sample.approver, sample.reason))
    else Log(d, Approval(Action(d).id, sample.approver, "dashboard"))
  }

  function ThroughGate(h: Hasher, cfg: Config, d: Data, now: real, call: ExecutorCall): Data {
    var w := GateStep(h, d.world, Action(d), now, call);
    var st := StateOf(w.log, Action(d).id);
    var outcome := if st.Some? then st.value.outcome else None;
    var before := if outcome.Some? then outcome.value.before else None;
    var after := if outcome.Some? then outcome.value.after else None;
    d.(world := w, before := before, recovered := IsRecovered(cfg, before, after),
       trace := d.trace + if |w.runs| > |d.world.runs| then [Ran] else [])
  }

  function Perform(h: Hasher, cfg: Config, p: Point, d: Data, a: Answer): Data {
    if p.SweepResidue? || p.Finally? then Record(d, Swept)
    else if p.Inject? then Record(d, Injected)
    else if p.EmitBaseline? then d.(deadline := a.now + cfg.baselineS)
    else if p.EmitSoak? then d.(deadline := a.now + cfg.soakS)
    else if p.SetDeadline? then d.(deadline := a.now + cfg.ttlS)
    else if p.Propose? && a.proposal.Some? then
      Offer(h, cfg, d, a.proposal.value.0, a.proposal.value.1, a.now)
    else if p.Announce? then Log(d, Post(Action(d).id, "dashboard", "run"))
    else if p.CheckAbort? && !d.aborted then Record(d, AbortChecked)
    else if p.ReadWhetherDecided? && d.decision.None? then Log(d, Expiry(Action(d).id))
    else if p.ReadDecision? && d.decision.Some? then
      Record(d, Sampled(d.decision.value)).(sample := d.decision)
    else if p.JournalVerdict? && d.sample.Some? then Settle(d, d.sample.value)
    else if p.RunGate? then ThroughGate(h, cfg, d, a.now, a.call)
    else if p.PollRecovery? && p.left > 0 && !d.recovered && !d.aborted then
      d.(recovered := IsRecovered(cfg, d.before, a.health))
    else d
  }

  /** Emitting a terminal phase and the finally clause cannot throw: a failing sweep is swallowed. */
  predicate EndPoint(p: Point) {
    p.EmitDone? || p.Handler? || p.Finally? || p.Finished?
  }

  /** Where the thread stands after an operation; a late throw diverts to the handler,
      unless an exception is already on its way there. */
  function Land(p: Point, c: Cues, fault: Fault): Point {
    var q := Flow(p, c);
    if fault == Late && !EndPoint(p) && !q.Handler? then Handler(false) else q
  }

  /** The phase shown once the operation has got that far. */
  function Shows(p: Point, shown: Option<Phase>): Option<Phase> {
    if Emits(p) == [] then shown else Some(Emits(p)[0])
  }

  predicate Interrupted(p: Point, fault: Fault) {
    (fault == Early || fault == Midway) && !EndPoint(p)
  }

  function Operate(h: Hasher, cfg: Config, s: LiveState, a: Answer): LiveState {
    if Interrupted(s.at, a.fault) then
      s.(at := Handler(false), shown := if a.fault == Midway then Shows(s.at, s.shown) else s.shown)
    else
      var d := Perform(h, cfg, s.at, s.data, a);
      var c := CuesOf(s.at, s.data, a, |d.world.runs| > |s.data.world.runs|);
      LiveState(Land(s.at, c, a.fault), Shows(s.at, s.shown), s.phases + Emits(s.at), d)
  }

  /** The state after one input. */
  function Respond(h: Hasher, cfg: Config, s: LiveState, i: Input): LiveState {
    match i
    case Abort => RequestAbort(s)
    case Click(d) => Decide(s, d).0
    case Work(a) => Operate(h, cfg, s, a)
  }

  function Steps(h: Hasher, cfg: Config, s: LiveState, inputs: seq<Input>): LiveState
    decreases |inputs|
  {
    if inputs == [] then s else Steps(h, cfg, Respond(h, cfg, s, inputs[0]), inputs[1..])
  }

  /** The state a run is in after these inputs. */
  function After(h: Hasher, cfg: Config, inputs: seq<Input>): LiveState {
    Steps(h, cfg, Initial(), inputs)
  }

  // ----- what an operation leaves alone -----

  /** Where the operation at p leads if nothing throws. */
  function Successor(h: Hasher, cfg: Config, p: Point, d: Data, a: Answer): Point {
    Flow(p, CuesOf(p, d, a, |Perform(h, cfg, p, d, a).world.runs| > |d.world.runs|))
  }

  /** The operations that write the journal. */
  predicate Journals(p: Point) {
    p.Propose? || p.Announce? || p.ReadWhetherDecided? || p.JournalVerdict? || p.RunGate?
  }

  lemma {:induction false} FrameWorld(h: Hasher, cfg: Config, p: Point, d: Data, a: Answer)
    ensures !Journals(p) ==> Perform(h, cfg, p, d, a).world == d.world
  {}

  lemma {:induction false} FrameAction(h: Hasher, cfg: Config, p: Point, d: Data, a: Answer)
    requires !p.Propose?
    ensures Perform(h, cfg, p, d, a).action == d.action
  {}

  lemma {:induction false} FrameDeadline(h: Hasher, cfg: Config, p: Point, d: Data, a: Answer)
    requires !p.Propose?
    ensures Perform(h, cfg, p, d, a).expiresAt == d.expiresAt
  {}

  lemma {:induction false} FrameSample(h: Hasher, cfg: Config, p: Point, d: Data, a: Answer)
    ensures Perform(h, cfg, p, d, a).sample == if p.ReadDecision? && d.decision.Some? then d.decision else d.sample
  {}

  lemma {:induction false} FrameDecision(h: Hasher, cfg: Config, p: Point, d: Data, a: Answer)
    ensures Perform(h, cfg, p, d, a).decision == d.decision
  {}

  lemma {:induction false} FrameAborted(h: Hasher, cfg: Config, p: Point, d: Data, a: Answer)
    ensures Perform(h, cfg, p, d, a).aborted == d.aborted
  {}

  lemma {:induction false} FrameReady(h: Hasher, cfg: Config, p: Point, d: Data, a: Answer)
    ensures Perform(h, cfg, p, d, a).ready == d.ready
  {}

  lemma {:induction false} OthersKeepRuns(h: Hasher, cfg: Config, p: Point, d: Data, a: Answer)
    requires !p.RunGate?
    ensures Perform(h, cfg, p, d, a).world.runs == d.world.runs
  {}

  /** The gate calls the executor at most once, and no other operation calls it. */
  lemma {:induction false} RunsGrowByOne(h: Hasher, cfg: Config, p: Point, d: Data, a: Answer)
    ensures var n, m := |d.world.runs|, |Perform(h, cfg, p, d, a).world.runs|;
            m == n || (p.RunGate? && m == n + 1)
  {
    if !p.RunGate? { OthersKeepRuns(h, cfg, p, d, a); }
  }

  /** What shows when an operation is cut short. */
  function ShownWhenThrown(s: LiveState, fault: Fault): Option<Phase> {
    if fault == Midway then Shows(s.at, s.shown) else s.shown
  }

  lemma {:induction false} OperateInterrupted(h: Hasher, cfg: Config, s: LiveState, a: Answer)
    requires Interrupted(s.at, a.fault)
    ensures Operate(h, cfg, s, a) == LiveState(Handler(false), ShownWhenThrown(s, a.fault), s.phases, s.data)
  {}

  lemma {:induction false} OperateThrough(h: Hasher, cfg: Config, s: LiveState, a: Answer)
    requires !Interrupted(s.at, a.fault)
    ensures var t := Operate(h, cfg, s, a);
            && t.phases == s.phases + Emits(s.at) && t.data == Perform(h, cfg, s.at, s.data, a)
            && t.shown == Shows(s.at, s.shown)
            && (a.fault.NoFault? ==> t.at == Successor(h, cfg, s.at, s.data, a))
  {}

  lemma {:induction false} FlowEnds(p: Point, c: Cues)
    ensures EndPoint(p) <==> Flow(p, c).Finally? || Flow(p, c).Finished?
    ensures p.Finally? || p.Finished? <==> Flow(p, c).Finished?
  {
    if !EndPoint(p) { FlowGoesOn(p, c); }
  }

  lemma {:induction false} FlowGoesOn(p: Point, c: Cues)
    requires !EndPoint(p)
    ensures !Flow(p, c).Finally? && !Flow(p, c).Finished?
  {}

  lemma {:induction false} EndsStayEnds(h: Hasher, cfg: Config, s: LiveState, a: Answer)
    ensures EndPoint(s.at) ==> EndPoint(Operate(h, cfg, s, a).at)
  {
    var d := Perform(h, cfg, s.at, s.data, a);
    FlowEnds(s.at, CuesOf(s.at, s.data, a, |d.world.runs| > |s.data.world.runs|));
  }

  lemma {:induction false} StepsAppend(h: Hasher, cfg: Config, s: LiveState, xs: seq<Input>, ys: seq<Input>)
    ensures Steps(h, cfg, s, xs + ys) == Steps(h, cfg, Steps(h, cfg, s, xs), ys)
    decreases |xs|
  {
    if xs == [] {
      assert xs + ys == ys;
    } else {
      assert (xs + ys)[0] == xs[0] && (xs + ys)[1..] == xs[1..] + ys;
      StepsAppend(h, cfg, Respond(h, cfg, s, xs[0]), xs[1..], ys);
    }
  }
}
