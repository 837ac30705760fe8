/** The action journal of a live run: which form it has wherever the run thread stands. */
module LiveLedger {
  import opened Common
  import opened Journal
  import opened Gate
  import opened LiveRun

  /** Which form the action journal has at a point: 0 blank, 1 offered, 2 approved,
      3 decided for good, 5 proposed but not yet posted; 4 stands for any of these, once an
      exception may have struck. */
  function Stage(p: Point): int {
    match p
    case EmitPreflight => 0
    case CheckPreflight => 0
    case EmitBooting => 0
    case CheckRunning => 0
    case AwaitRunning(_) => 0
    case AwaitIngest(_) => 0
    case SweepResidue => 0
    case EmitBaseline => 0
    case WaitBaseline => 0
    case EmitInjecting => 0
    case Inject => 0
    case EmitSoak => 0
    case WaitSoak => 0
    case EmitInvestigating => 0
    case Investigate => 0
    case EmitReport => 0
    case Propose => 0
    case Announce => 5
    case EmitAwaiting => 1
    case SetDeadline => 1
    case AwaitDecision => 1
    case CheckAbort => 1
    case ReadWhetherDecided => 1
    case ReadDecision => 1
    case JournalVerdict => 1
    case EmitExecuting => 2
    case RunGate => 2
    case EmitRecovering => 3
    case PollRecovery(_) => 3
    case EmitDone => 3
    case Handler(_) => 4
    case Finally => 4
    case Finished => 4
  }

  lemma {:induction false} FlowStage(p: Point, c: Cues)
    ensures var q := Flow(p, c);
            if p.Propose? then Stage(q) == if c.ok then 5 else 4
            else if p.Announce? then Stage(q) == 1
            else if p.ReadWhetherDecided? then Stage(q) == if c.decided then 1 else 3
            else if p.JournalVerdict? then Stage(q) == if c.denied then 3 else 2
            else if p.RunGate? then Stage(q) == if c.raised then 4 else 3
            else Stage(q) == Stage(p) || (Stage(q) == 4 && (EndPoint(p) || q.Handler?))
  {}

  function OfferedLog(d: Data): seq<Event> {
    [Proposal(Action(d), Some(d.expiresAt)), Post(Action(d).id, "dashboard", "run")]
  }

  ghost predicate Hashed(h: Hasher, d: Data) {
    d.action.Some? && d.action.value.paramsHash == h(d.action.value.content)
  }

  ghost predicate Blank(d: Data) {
    d.world == World([], [])
  }

  ghost predicate Drafted(h: Hasher, d: Data) {
    Hashed(h, d) && d.world == World([Proposal(Action(d), Some(d.expiresAt))], [])
  }

  ghost predicate Offered(h: Hasher, d: Data) {
    Hashed(h, d) && d.world == World(OfferedLog(d), [])
  }

  ghost predicate Cleared(h: Hasher, d: Data) {
    && Hashed(h, d) && d.sample.Some? && d.sample.value.verb == Approve
    && d.world == ClearedWorld(d)
  }

  function ClearedWorld(d: Data): World {
    var approver := if d.sample.Some? then d.sample.value.approver else "";
    World(OfferedLog(d) + [Approval(Action(d).id, approver, "dashboard")], [])
  }

  /** Nobody decided in time. */
  ghost predicate Lapsed(h: Hasher, d: Data) {
    Hashed(h, d) && d.sample.None? && d.world == World(OfferedLog(d) + [Expiry(Action(d).id)], [])
  }

  ghost predicate Refused(h: Hasher, d: Data) {
    && Hashed(h, d) && d.sample.Some? && d.sample.value.verb == Deny
    && d.world == World(OfferedLog(d) + [Denial(Action(d).id, d.sample.value.approver, d.sample.value.reason)], [])
  }

  /** The approved action went through the gate at time now. */
  ghost predicate Gated(h: Hasher, d: Data, now: real, call: ExecutorCall) {
    && Hashed(h, d) && d.sample.Some? && d.sample.value.verb == Approve
    && d.world == GateStep(h, ClearedWorld(d), Action(d), now, call)
  }

  ghost predicate Concluded(h: Hasher, d: Data) {
    Lapsed(h, d) || Refused(h, d)
    || exists now, call :: Gated(h, d, now, call) && (d.world.runs == [] || call.attempt.Returned?)
  }

  ghost predicate SomeLedger(h: Hasher, d: Data) {
    Blank(d) || Drafted(h, d) || Offered(h, d) || Cleared(h, d) || Lapsed(h, d) || Refused(h, d)
    || exists now, call :: Gated(h, d, now, call)
  }

  ghost predicate LedgerOk(h: Hasher, at: Point, d: Data) {
    && (Stage(at) == 0 ==> Blank(d))
    && (Stage(at) == 1 ==> Offered(h, d))
    && (Stage(at) == 2 ==> Cleared(h, d))
    && (Stage(at) == 3 ==> Concluded(h, d))
    && (Stage(at) == 5 ==> Drafted(h, d))
    && SomeLedger(h, d)
  }

  lemma {:induction false} OfferLedger(h: Hasher, cfg: Config, d: Data, id: string, content: Content, now: real)
    requires Blank(d)
    ensures Drafted(h, Offer(h, cfg, d, id, content, now))
  {
    var d' := Offer(h, cfg, d, id, content, now);
    assert d'.world.log == [Proposal(Action(d'), Some(d'.expiresAt))];
  }

  lemma {:induction false} AnnounceLedger(h: Hasher, d: Data)
    requires Drafted(h, d)
    ensures Offered(h, Log(d, Post(Action(d).id, "dashboard", "run")))
  {
    var d' := Log(d, Post(Action(d).id, "dashboard", "run"));
    assert d'.world.log == OfferedLog(d');
  }

  lemma {:induction false} VerdictLedger(h: Hasher, d: Data, sample: Decision)
    requires Offered(h, d) && d.sample == Some(sample)
    ensures if sample.verb == Deny then Refused(h, Settle(d, sample)) else Cleared(h, Settle(d, sample))
  {}

  lemma {:induction false} GateLedger(h: Hasher, cfg: Config, d: Data, now: real, call: ExecutorCall)
    requires Cleared(h, d)
    ensures var d' := ThroughGate(h, cfg, d, now, call);
            && Gated(h, d', now, call)
            && (d'.world.runs == [] || |d'.world.runs| > |d.world.runs|)
  {}

  lemma {:induction false} ProposeLedger(h: Hasher, cfg: Config, p: Point, d: Data, a: Answer)
    requires p.Propose? && Blank(d)
    ensures LedgerOk(h, Successor(h, cfg, p, d, a), Perform(h, cfg, p, d, a))
  {
    if a.proposal.Some? { OfferLedger(h, cfg, d, a.proposal.value.0, a.proposal.value.1, a.now); }
  }

  lemma {:induction false} PostLedger(h: Hasher, cfg: Config, p: Point, d: Data, a: Answer)
    requires p.Announce? && Drafted(h, d)
    ensures LedgerOk(h, Successor(h, cfg, p, d, a), Perform(h, cfg, p, d, a))
  {
    AnnounceLedger(h, d);
  }

  lemma {:induction false} ExpiryLedger(h: Hasher, cfg: Config, p: Point, d: Data, a: Answer)
    requires p.ReadWhetherDecided? && Offered(h, d) && d.sample.None?
    ensures LedgerOk(h, Successor(h, cfg, p, d, a), Perform(h, cfg, p, d, a))
  {
    if d.decision.None? { assert Lapsed(h, Perform(h, cfg, p, d, a)); }
  }

  lemma {:induction false} ReadLedger(h: Hasher, cfg: Config, p: Point, d: Data, a: Answer)
    requires p.ReadDecision? && Offered(h, d)
    ensures LedgerOk(h, Successor(h, cfg, p, d, a), Perform(h, cfg, p, d, a))
  {
    assert Offered(h, Perform(h, cfg, p, d, a));
  }

  lemma {:induction false} DecidedLedger(h: Hasher, cfg: Config, p: Point, d: Data, a: Answer)
    requires p.JournalVerdict? && Offered(h, d) && d.sample.Some?
    ensures LedgerOk(h, Successor(h, cfg, p, d, a), Perform(h, cfg, p, d, a))
  {
    VerdictLedger(h, d, d.sample.value);
  }

  lemma {:induction false} GatedConcludes(h: Hasher, d: Data, now: real, call: ExecutorCall)
    requires Gated(h, d, now, call)
    ensures SomeLedger(h, d)
    ensures d.world.runs == [] || call.attempt.Returned? ==> Concluded(h, d)
  {}

  lemma {:induction false} ThrownLedger(h: Hasher, d: Data)
    requires SomeLedger(h, d)
    ensures LedgerOk(h, Handler(false), d)
  {}

  lemma {:induction false} ConcludedLedger(h: Hasher, d: Data)
    requires SomeLedger(h, d) && Concluded(h, d)
    ensures LedgerOk(h, EmitRecovering, d)
  {}

  lemma {:induction false} GatedLedger(h: Hasher, d: Data, d': Data, now: real, call: ExecutorCall)
    requires Gated(h, d', now, call) && (d'.world.runs == [] || |d'.world.runs| > |d.world.runs|)
    ensures LedgerOk(h, if |d'.world.runs| > |d.world.runs| && call.attempt.Raised? then Handler(false) else EmitRecovering, d')
  {
    GatedConcludes(h, d', now, call);
    if |d'.world.runs| > |d.world.runs| && call.attempt.Raised? {
      ThrownLedger(h, d');
    } else {
      ConcludedLedger(h, d');
    }
  }

  lemma {:induction false} RunGateLeads(h: Hasher, cfg: Config, p: Point, d: Data, a: Answer)
    requires p.RunGate?
    ensures var d' := ThroughGate(h, cfg, d, a.now, a.call);
            && Perform(h, cfg, p, d, a) == d'
            && Successor(h, cfg, p, d, a)
               == if |d'.world.runs| > |d.world.runs| && a.call.attempt.Raised? then Handler(false) else EmitRecovering
  {}

  lemma {:induction false} RunGateLedger(h: Hasher, cfg: Config, p: Point, d: Data, a: Answer)
    requires p.RunGate? && Cleared(h, d)
    ensures LedgerOk(h, Successor(h, cfg, p, d, a), Perform(h, cfg, p, d, a))
  {
    RunGateLeads(h, cfg, p, d, a);
    GateLedger(h, cfg, d, a.now, a.call);
    GatedLedger(h, d, ThroughGate(h, cfg, d, a.now, a.call), a.now, a.call);
  }

  lemma {:induction false} QuietLedger(h: Hasher, cfg: Config, p: Point, d: Data, a: Answer)
    requires LedgerOk(h, p, d) && !Journals(p) && !p.ReadDecision?
    ensures LedgerOk(h, Successor(h, cfg, p, d, a), Perform(h, cfg, p, d, a))
  {
    var d' := Perform(h, cfg, p, d, a);
    FrameWorld(h, cfg, p, d, a);
    FrameAction(h, cfg, p, d, a);
    FrameDeadline(h, cfg, p, d, a);
    FrameSample(h, cfg, p, d, a);
    SameLedger(h, d, d');
    FlowStage(p, CuesOf(p, d, a, |d'.world.runs| > |d.world.runs|));
    StageLedger(h, p, Successor(h, cfg, p, d, a), d, d');
  }

  lemma {:induction false} StageLedger(h: Hasher, p: Point, q: Point, d: Data, d': Data)
    requires LedgerOk(h, p, d) && (Stage(q) == Stage(p) || Stage(q) == 4)
    requires Blank(d) ==> Blank(d')
    requires Drafted(h, d) ==> Drafted(h, d')
    requires Offered(h, d) ==> Offered(h, d')
    requires Cleared(h, d) ==> Cleared(h, d')
    requires Concluded(h, d) ==> Concluded(h, d')
    requires SomeLedger(h, d) ==> SomeLedger(h, d')
    ensures LedgerOk(h, q, d')
  {}

  /** What holds of the journal after the operation at p, given what its successor expects. */
  lemma {:induction false} PerformLedger(h: Hasher, cfg: Config, p: Point, d: Data, a: Answer)
    requires LedgerOk(h, p, d)
    requires p.JournalVerdict? ==> d.sample.Some?
    requires p.ReadWhetherDecided? || p.ReadDecision? ==> d.sample.None?
    ensures LedgerOk(h, Successor(h, cfg, p, d, a), Perform(h, cfg, p, d, a))
  {
    StageOf(h, p, d);
    if p.Propose? {
      ProposeLedger(h, cfg, p, d, a);
    } else if p.Announce? {
      PostLedger(h, cfg, p, d, a);
    } else if p.ReadWhetherDecided? {
      ExpiryLedger(h, cfg, p, d, a);
    } else if p.JournalVerdict? {
      DecidedLedger(h, cfg, p, d, a);
    } else if p.RunGate? {
      RunGateLedger(h, cfg, p, d, a);
    } else if p.ReadDecision? {
      ReadLedger(h, cfg, p, d, a);
    } else {
      QuietLedger(h, cfg, p, d, a);
    }
  }

  lemma {:induction false} StageOf(h: Hasher, p: Point, d: Data)
    requires LedgerOk(h, p, d)
    ensures p.Propose? ==> Blank(d)
    ensures p.Announce? ==> Drafted(h, d)
    ensures p.ReadWhetherDecided? || p.ReadDecision? || p.JournalVerdict? ==> Offered(h, d)
    ensures p.RunGate? ==> Cleared(h, d)
  {}

  lemma {:induction false} SameLedger(h: Hasher, d: Data, d': Data)
    requires d'.world == d.world && d'.action == d.action && d'.expiresAt == d.expiresAt && d'.sample == d.sample
    ensures Blank(d) ==> Blank(d')
    ensures Drafted(h, d) ==> Drafted(h, d')
    ensures Offered(h, d) ==> Offered(h, d')
    ensures Cleared(h, d) ==> Cleared(h, d')
    ensures Concluded(h, d) ==> Concluded(h, d')
    ensures SomeLedger(h, d) ==> SomeLedger(h, d')
  {
    forall now, call | Gated(h, d, now, call) ensures Gated(h, d', now, call) {}
  }

  lemma {:induction false} EndingKeepsTheLedger(h: Hasher, cfg: Config, p: Point, d: Data, a: Answer)
    requires EndPoint(p) && Concluded(h, d)
    ensures Concluded(h, Perform(h, cfg, p, d, a))
  {
    FrameWorld(h, cfg, p, d, a);
    FrameAction(h, cfg, p, d, a);
    FrameDeadline(h, cfg, p, d, a);
    FrameSample(h, cfg, p, d, a);
    SameLedger(h, d, Perform(h, cfg, p, d, a));
  }

  // ----- what the gate leaves -----

  lemma {:induction false} ThreeEvents(e1: Event, e2: Event, e3: Event, id: string)
    requires e1.ActionId() == id && e2.ActionId() == id && e3.ActionId() == id
    ensures StateOf([e1, e2], id) == Advance(Advance(None, e1), e2)
    ensures StateOf([e1, e2, e3], id) == Advance(Advance(Advance(None, e1), e2), e3)
  {
    AppendTouchesOneAction([], e1, id);
    AppendTouchesOneAction([e1], e2, id);
    AppendTouchesOneAction([e1, e2], e3, id);
    assert [] + [e1] == [e1] && [e1] + [e2] == [e1, e2] && [e1, e2] + [e3] == [e1, e2, e3];
  }

  lemma {:induction false} ClearedIsApproved(h: Hasher, d: Data)
    requires Hashed(h, d)
    ensures var st := StateOf(ClearedWorld(d).log, Action(d).id);
            && st.Some? && st.value.status == Status.Approved
            && st.value.action == Action(d) && st.value.expiresAt == Some(d.expiresAt)
  {
    var log := ClearedWorld(d).log;
    assert log == [OfferedLog(d)[0], OfferedLog(d)[1], log[2]];
    ThreeEvents(log[0], log[1], log[2], Action(d).id);
  }

  /** What the gate leaves of an approved action: run in time, or expired. */
  ghost predicate GateLeft(h: Hasher, d: Data, now: real, call: ExecutorCall) {
    var base, id := ClearedWorld(d).log, Action(d).id;
    if now <= d.expiresAt then
      && d.world.runs == [RunRecord(Action(d), now, |base|)]
      && d.world.log == base + [Start(id, call.backend, call.preview)]
                        + (if call.attempt.Returned? then [Finish(id, call.attempt.outcome)] else [])
    else
      d.world == World(base + [Expiry(id)], [])
  }

  lemma {:induction false} GateLeaves(h: Hasher, d: Data, now: real, call: ExecutorCall)
    requires Gated(h, d, now, call)
    ensures GateLeft(h, d, now, call)
  {
    ClearedIsApproved(h, d);
    assert ClearedWorld(d).runs == [];
    assert [Start(Action(d).id, call.backend, call.preview)] + [] == [Start(Action(d).id, call.backend, call.preview)];
  }

  /** The approved action runs exactly when the gate sees it within its deadline. */
  lemma {:induction false} GateOutcome(h: Hasher, d: Data, now: real, call: ExecutorCall)
    requires Gated(h, d, now, call)
    ensures GateLeft(h, d, now, call)
    ensures var id := Action(d).id;
            if now <= d.expiresAt then
              call.attempt.Returned? ==>
                HasStatus(d.world.log, id, if call.attempt.outcome.ok then Status.Done else Status.Failed)
            else HasStatus(d.world.log, id, Status.Expired)
  {
    GateLeaves(h, d, now, call);
    if now > d.expiresAt {
      LeftExpired(h, d, now, call);
    } else if call.attempt.Returned? {
      LeftFinished(h, d, now, call);
    }
  }

  lemma {:induction false} LeftExpired(h: Hasher, d: Data, now: real, call: ExecutorCall)
    requires Hashed(h, d) && GateLeft(h, d, now, call) && now > d.expiresAt
    ensures HasStatus(d.world.log, Action(d).id, Status.Expired)
  {
    ClearedIsApproved(h, d);
    AppendTouchesOneAction(ClearedWorld(d).log, Expiry(Action(d).id), Action(d).id);
  }

  lemma {:induction false} LeftFinished(h: Hasher, d: Data, now: real, call: ExecutorCall)
    requires Hashed(h, d) && GateLeft(h, d, now, call) && now <= d.expiresAt && call.attempt.Returned?
    ensures HasStatus(d.world.log, Action(d).id, if call.attempt.outcome.ok then Status.Done else Status.Failed)
  {
    ClearedIsApproved(h, d);
    var base, id := ClearedWorld(d).log, Action(d).id;
    var start, finish := Start(id, call.backend, call.preview), Finish(id, call.attempt.outcome);
    AppendTwo(base, start, finish, id);
    assert base + [start] + [finish] == base + [start, finish];
  }

  ghost predicate NoRefusal(log: seq<Event>) {
    forall i :: 0 <= i < |log| ==> !log[i].Denial? && !log[i].Expiry?
  }

  lemma {:induction false} GatedRuns(h: Hasher, d: Data, now: real, call: ExecutorCall)
    requires Gated(h, d, now, call)
    ensures |d.world.runs| <= 1 && (d.world.runs != [] ==> NoRefusal(d.world.log))
  {
    GateOutcome(h, d, now, call);
    assert NoRefusal(ClearedWorld(d).log);
  }

  lemma {:induction false} LedgerRuns(h: Hasher, d: Data)
    requires SomeLedger(h, d)
    ensures |d.world.runs| <= 1
    ensures d.world.runs != [] ==> d.sample.Some? && d.sample.value.verb == Approve && NoRefusal(d.world.log)
  {
    if d.world.runs != [] {
      var now, call :| Gated(h, d, now, call);
      GatedRuns(h, d, now, call);
    }
  }

  lemma {:induction false} LapsedOutcome(h: Hasher, d: Data)
    requires Lapsed(h, d)
    ensures HasStatus(d.world.log, Action(d).id, Status.Expired)
  {
    var id := Action(d).id;
    assert d.world.log == [OfferedLog(d)[0], OfferedLog(d)[1], Expiry(id)];
    ThreeEvents(OfferedLog(d)[0], OfferedLog(d)[1], Expiry(id), id);
  }

  lemma {:induction false} RefusedOutcome(h: Hasher, d: Data)
    requires Refused(h, d)
    ensures HasStatus(d.world.log, Action(d).id, Status.Denied)
  {
    var id := Action(d).id;
    var e := Denial(id, d.sample.value.approver, d.sample.value.reason);
    assert d.world.log == [OfferedLog(d)[0], OfferedLog(d)[1], e];
    ThreeEvents(OfferedLog(d)[0], OfferedLog(d)[1], e, id);
  }

  lemma {:induction false} GatedStatus(h: Hasher, d: Data, now: real, call: ExecutorCall)
    requires Gated(h, d, now, call) && (d.world.runs == [] || call.attempt.Returned?)
    ensures var id := Action(d).id;
            if d.world.runs == [] then HasStatus(d.world.log, id, Status.Expired)
            else HasStatus(d.world.log, id, Status.Done) || HasStatus(d.world.log, id, Status.Failed)
  {
    GateOutcome(h, d, now, call);
  }
}
