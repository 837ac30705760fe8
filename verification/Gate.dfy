/** The approval gate (sentinel/actions/gate.py) and the decision handler every approval
    surface goes through (sentinel/actions/dispatch.py). Each call is one atomic step. */
module Gate {
  import opened Common
  import opened Journal

  /** sha256 over the action's content; nothing below depends on which function it is. */
  type Hasher = Content -> string

  datatype GateStatus = RanDone | RanFailed | DeniedHash | PastTtl | AlreadyConsumed | NotApproved

  datatype GateResult = GateResult(executed: bool, status: GateStatus)

  /** What one executor call did: an outcome, or an exception that escapes the gate. */
  datatype Attempt = Returned(outcome: Outcome) | Raised(error: string)

  datatype Verdict = Refuse(status: GateStatus) | Run

  function KindName(k: ActionKind): string {
    match k
    case Restart => "restart"
    case Scale => "scale"
    case RemoveImpairment => "remove_impairment"
    case RevertChange => "revert_change"
    case OpenTicket => "open_ticket"
    case PageOncall => "page_oncall"
  }

  function Mismatch(action: SuggestedAction): Event {
    NearMiss(action.id, KindName(action.content.kind) + " " + action.content.target, "executor",
             "params_hash mismatch vs approval")
  }

  function ApprovedHash(h: Hasher, action: SuggestedAction): string {
    if action.paramsHash != "" then action.paramsHash else h(action.content)
  }

  predicate InTime(expiresAt: Option<real>, now: real) {
    expiresAt.Some? ==> now <= expiresAt.value
  }

  function Judge(h: Hasher, log: seq<Event>, action: SuggestedAction, now: real): Verdict {
    var st := StateOf(log, action.id);
    if st.None? then Refuse(NotApproved)
    else if st.value.status != Status.Approved then
      Refuse(if st.value.status in {Status.Executing, Status.Done, Status.Failed}
             then AlreadyConsumed else NotApproved)
    else if !InTime(st.value.expiresAt, now) then Refuse(PastTtl)
    else if h(action.content) != ApprovedHash(h, st.value.action) then Refuse(DeniedHash)
    else Run
  }

  datatype ExecutorCall = ExecutorCall(backend: string, preview: string, attempt: Attempt)

  /** One run of the executor: on what, when, and where the journal recorded its start. */
  datatype RunRecord = RunRecord(action: SuggestedAction, now: real, at: nat)

  datatype World = World(log: seq<Event>, runs: seq<RunRecord>)

  function GateEvents(v: Verdict, action: SuggestedAction, call: ExecutorCall): seq<Event> {
    match v
    case Refuse(PastTtl) => [Expiry(action.id)]
    case Refuse(DeniedHash) => [Mismatch(action)]
    case Refuse(_) => []
    case Run =>
      [Start(action.id, call.backend, call.preview)]
      + if call.attempt.Returned? then [Finish(action.id, call.attempt.outcome)] else []
  }

  function GateStep(h: Hasher, w: World, action: SuggestedAction, now: real, call: ExecutorCall): World {
    var v := Judge(h, w.log, action, now);
    World(w.log + GateEvents(v, action, call),
          w.runs + if v.Run? then [RunRecord(action, now, |w.log|)] else [])
  }

  /** An approve or deny click, from any surface, possibly redelivered or late. */
  function DecisionStep(h: Hasher, w: World, id: string, decision: string, approver: string,
                        surface: string, now: real, call: ExecutorCall): World {
    if decision == "deny" then
      w.(log := w.log + [Denial(id, approver, "")])
    else if decision != "approve" || StateOf(w.log, id).None? then
      w
    else
      GateStep(h, w.(log := w.log + [Approval(id, approver, surface)]),
               StateOf(w.log, id).value.action, now, call)
  }

  // ----- the imperative gate, proved against those steps --------------------------

  class Executor {
    const backend: string
    const render: SuggestedAction -> string
    const attempts: nat -> Attempt
    var ran: seq<SuggestedAction>

    constructor (backend: string, render: SuggestedAction -> string, attempts: nat -> Attempt)
      ensures this.backend == backend && this.render == render && this.attempts == attempts
      ensures ran == []
    {
      this.backend, this.render, this.attempts := backend, render, attempts;
      ran := [];
    }

    method Execute(action: SuggestedAction) returns (a: Attempt)
      modifies this
      ensures ran == old(ran) + [action] && a == attempts(|old(ran)|)
    {
      a := attempts(|ran|);
      ran := ran + [action];
    }

    function NextCall(action: SuggestedAction): ExecutorCall
      reads this
    {
      ExecutorCall(backend, render(action), attempts(|ran|))
    }
  }

  function Actions(runs: seq<RunRecord>): seq<SuggestedAction> {
    seq(|runs|, i requires 0 <= i < |runs| => runs[i].action)
  }

  /** What the caller is told: a refusal, the executor's outcome, or its exception. */
  function Answer(v: Verdict, attempt: Attempt): Result<GateResult, string> {
    match v
    case Refuse(status) => Ok(GateResult(false, status))
    case Run =>
      match attempt
      case Raised(error) => Err(error)
      case Returned(outcome) => Ok(GateResult(outcome.ok, if outcome.ok then RanDone else RanFailed))
  }

  /** A near miss names what was attempted and why it was stopped. */
  lemma {:induction false} MismatchIsTold(action: SuggestedAction)
    ensures var e := Mismatch(action);
            && e.NearMiss? && e.id == action.id && e.actor == "executor" && e.why == "params_hash mismatch vs approval"
            && exists kind :: Named(action.content.kind, kind) && e.attempted == kind + " " + action.content.target
  {
    assert Named(action.content.kind, KindName(action.content.kind));
  }

  ghost predicate Named(k: ActionKind, name: string) {
    && (k.Restart? ==> name == "restart") && (k.Scale? ==> name == "scale")
    && (k.RemoveImpairment? ==> name == "remove_impairment") && (k.RevertChange? ==> name == "revert_change")
    && (k.OpenTicket? ==> name == "open_ticket") && (k.PageOncall? ==> name == "page_oncall")
  }

  /** The answer of a call of the executor agrees with what the journal then says. */
  ghost predicate TellsTheRun(log: seq<Event>, id: string, called: bool, attempt: Attempt, r: Result<GateResult, string>) {
    && (r == Ok(GateResult(true, RanDone)) <==> called && HasStatus(log, id, Status.Done))
    && (r == Ok(GateResult(false, RanFailed)) <==> called && HasStatus(log, id, Status.Failed))
    && (r.Err? <==> called && HasStatus(log, id, Status.Executing))
    && (r.Err? ==> attempt == Raised(r.error))
    && (r.Ok? ==> (r.value.executed <==> r.value.status == RanDone))
  }

  /** A refusal agrees with what the journal said before, and says now. */
  ghost predicate TellsTheRefusal(was: seq<Event>, log: seq<Event>, id: string, r: Result<GateResult, string>) {
    && (r == Ok(GateResult(false, PastTtl)) <==> HasStatus(was, id, Status.Approved) && HasStatus(log, id, Status.Expired))
    && (r == Ok(GateResult(false, DeniedHash)) <==> HasStatus(was, id, Status.Approved) && HasStatus(log, id, Status.Approved))
    && (r == Ok(GateResult(false, AlreadyConsumed)) <==>
          HasStatus(was, id, Status.Executing) || HasStatus(was, id, Status.Done) || HasStatus(was, id, Status.Failed))
    && (r == Ok(GateResult(false, NotApproved)) <==>
          || StateOf(was, id).None? || HasStatus(was, id, Status.Proposed) || HasStatus(was, id, Status.Posted)
          || HasStatus(was, id, Status.Denied) || HasStatus(was, id, Status.Expired))
  }

  ghost predicate Truthful(was: seq<Event>, log: seq<Event>, id: string, called: bool, attempt: Attempt,
                           r: Result<GateResult, string>) {
    TellsTheRun(log, id, called, attempt, r) && TellsTheRefusal(was, log, id, r)
  }

  /** What each answer leaves in the journal. */
  ghost predicate Recorded(was: seq<Event>, log: seq<Event>, action: SuggestedAction, backend: string, preview: string,
                           attempt: Attempt, r: Result<GateResult, string>) {
    match r
    case Err(_) => log == was + [Start(action.id, backend, preview)]
    case Ok(GateResult(_, status)) =>
      match status
      case PastTtl => log == was + [Expiry(action.id)]
      case DeniedHash => log == was + [Mismatch(action)]
      case AlreadyConsumed => log == was
      case NotApproved => log == was
      case RanDone => attempt.Returned? && log == was + [Start(action.id, backend, preview), Finish(action.id, attempt.outcome)]
      case RanFailed => attempt.Returned? && log == was + [Start(action.id, backend, preview), Finish(action.id, attempt.outcome)]
  }

  lemma {:induction false} RefusalIsTruthful(h: Hasher, w: World, action: SuggestedAction, now: real, call: ExecutorCall)
    requires !Judge(h, w.log, action, now).Run?
    ensures var t := GateStep(h, w, action, now, call);
            Truthful(w.log, t.log, action.id, false, call.attempt, Answer(Judge(h, w.log, action, now), call.attempt))
  {
    var events := GateEvents(Judge(h, w.log, action, now), action, call);
    if events == [] {
      assert w.log + events == w.log;
    } else {
      AppendTouchesOneAction(w.log, events[0], action.id);
      assert events == [events[0]];
    }
  }

  lemma {:induction false} RunIsTruthful(h: Hasher, w: World, action: SuggestedAction, now: real, call: ExecutorCall)
    requires Judge(h, w.log, action, now).Run?
    ensures var t := GateStep(h, w, action, now, call);
            Truthful(w.log, t.log, action.id, true, call.attempt, Answer(Run, call.attempt))
  {
    var start, id := Start(action.id, call.backend, call.preview), action.id;
    if call.attempt.Returned? {
      AppendTwo(w.log, start, Finish(id, call.attempt.outcome), id);
      assert GateEvents(Run, action, call) == [start, Finish(id, call.attempt.outcome)];
    } else {
      AppendTouchesOneAction(w.log, start, id);
      assert GateEvents(Run, action, call) == [start];
    }
  }

  lemma {:induction false} AnswerIsRecorded(h: Hasher, w: World, action: SuggestedAction, now: real, call: ExecutorCall)
    ensures Recorded(w.log, GateStep(h, w, action, now, call).log, action, call.backend, call.preview, call.attempt,
                     Answer(Judge(h, w.log, action, now), call.attempt))
  {
    var events := GateEvents(Judge(h, w.log, action, now), action, call);
    if events == [] { assert w.log + events == w.log; }
  }

  /** The gate tells its caller the truth. */
  lemma {:induction false} AnswerIsTruthful(h: Hasher, w: World, action: SuggestedAction, now: real, call: ExecutorCall)
    ensures var t := GateStep(h, w, action, now, call);
            Truthful(w.log, t.log, action.id, t.runs != w.runs, call.attempt, Answer(Judge(h, w.log, action, now), call.attempt))
  {
    if Judge(h, w.log, action, now).Run? {
      RunIsTruthful(h, w, action, now, call);
    } else {
      RefusalIsTruthful(h, w, action, now, call);
      assert w.runs + [] == w.runs;
    }
  }

  method ExecuteApproved(h: Hasher, journal: ActionJournal, action: SuggestedAction, executor: Executor, now: real)
    returns (r: Result<GateResult, string>)
    modifies journal, executor
    ensures var w := GateStep(h, World(old(journal.log), []), action, now, old(executor.NextCall(action)));
            journal.log == w.log && executor.ran == old(executor.ran) + Actions(w.runs)
    ensures r == Answer(Judge(h, old(journal.log), action, now), executor.attempts(|old(executor.ran)|))
    ensures Truthful(old(journal.log), journal.log, action.id, executor.ran != old(executor.ran),
                     executor.attempts(|old(executor.ran)|), r)
    ensures Recorded(old(journal.log), journal.log, action, executor.backend, executor.render(action),
                     executor.attempts(|old(executor.ran)|), r)
  {
    ghost var was, call := World(journal.log, []), executor.NextCall(action);
    var st := journal.CurrentState(action.id);
    if st.None? || st.value.status != Status.Approved {
      var consumed := st.Some? && st.value.status in {Status.Executing, Status.Done, Status.Failed};
      r := Ok(GateResult(false, if consumed then AlreadyConsumed else NotApproved));
    } else if st.value.expiresAt.Some? && now > st.value.expiresAt.value {
      journal.Append(Expiry(action.id));
      r := Ok(GateResult(false, PastTtl));
    } else if h(action.content) != ApprovedHash(h, st.value.action) {
      journal.Append(Mismatch(action));
      r := Ok(GateResult(false, DeniedHash));
    } else {
      journal.Append(Start(action.id, executor.backend, executor.render(action)));
      var attempt := executor.Execute(action);
      if attempt.Raised? {
        r := Err(attempt.error);
      } else {
        journal.Append(Finish(action.id, attempt.outcome));
        r := Ok(GateResult(attempt.outcome.ok, if attempt.outcome.ok then RanDone else RanFailed));
      }
    }
    assert journal.log == GateStep(h, was, action, now, call).log;
    assert executor.ran == old(executor.ran) + Actions(GateStep(h, was, action, now, call).runs);
    assert r == Answer(Judge(h, was.log, action, now), call.attempt);
    AnswerIsTruthful(h, was, action, now, call);
    AnswerIsRecorded(h, was, action, now, call);
  }

  method HandleDecision(h: Hasher, journal: ActionJournal, id: string, decision: string, approver: string,
                        surface: string, executor: Executor, now: real)
    returns (r: Option<Result<GateResult, string>>)
    modifies journal, executor
    ensures var st := StateOf(old(journal.log), id);
            var call := if st.Some? then old(executor.NextCall(StateOf(journal.log, id).value.action))
                        else ExecutorCall("", "", Raised(""));
            var w := DecisionStep(h, World(old(journal.log), []), id, decision, approver, surface, now, call);
            journal.log == w.log && executor.ran == old(executor.ran) + Actions(w.runs)
    ensures var st := StateOf(old(journal.log), id);
            if decision == "approve" && st.Some? then
              var clicked := old(journal.log) + [Approval(id, approver, surface)];
              && r == Some(Answer(Judge(h, clicked, st.value.action, now), executor.attempts(|old(executor.ran)|)))
              && Truthful(clicked, journal.log, id, executor.ran != old(executor.ran),
                          executor.attempts(|old(executor.ran)|), r.value)
              && Recorded(clicked, journal.log, st.value.action, executor.backend, executor.render(st.value.action),
                          executor.attempts(|old(executor.ran)|), r.value)
            else
              && r == None && executor.ran == old(executor.ran)
              && journal.log == old(journal.log) + if decision == "deny" then [Denial(id, approver, "")] else []
  {
    if decision == "deny" {
      journal.Append(Denial(id, approver, ""));
      return None;
    }
    if decision != "approve" {
      return None;
    }
    var st := journal.CurrentState(id);
    if st.None? {
      return None;
    }
    StateNamesItsAction(journal.log, id);
    journal.Append(Approval(id, approver, surface));
    var res := ExecuteApproved(h, journal, st.value.action, executor, now);
    return Some(res);
  }

  // ----- safety over whole runs ---------------------------------------------------

  datatype Step =
    | Emit(e: Event)                  // any emitter other than the gate's own two
    | Click(id: string, decision: string, approver: string, surface: string, now: real, call: ExecutorCall)
    | Trigger(action: SuggestedAction, now: real, call: ExecutorCall)

  /** Only the gate records the start and the result of an execution. */
  predicate Legal(s: Step) {
    s.Emit? ==> !s.e.Start? && !s.e.Finish?
  }

  function Next(h: Hasher, w: World, s: Step): World {
    match s
    case Emit(e) => w.(log := w.log + [e])
    case Click(id, decision, approver, surface, now, call) =>
      DecisionStep(h, w, id, decision, approver, surface, now, call)
    case Trigger(action, now, call) => GateStep(h, w, action, now, call)
  }

  function RunFrom(h: Hasher, w: World, steps: seq<Step>): World
    decreases |steps|
  {
    if steps == [] then w else RunFrom(h, Next(h, w, steps[0]), steps[1..])
  }

  /** An execution of r.action is backed by the history before it: a proposal p in force, a first
      decision q that approves it, no expiry, the approved content, and the deadline not passed. */
  ghost predicate Justified(h: Hasher, log: seq<Event>, r: RunRecord) {
    && r.at < |log| && log[r.at].Start? && log[r.at].id == r.action.id
    && exists p: nat, q: nat :: ApprovedBy(log, r.action.id, p, q, r.at) && Authorises(h, log[p], r)
  }

  ghost predicate Authorises(h: Hasher, proposal: Event, r: RunRecord) {
    && proposal.Proposal?
    && h(r.action.content) == ApprovedHash(h, proposal.action)
    && InTime(proposal.expiresAt, r.now)
  }

  /** Every run is justified, and runs and journaled starts correspond one to one, in order. */
  ghost predicate Audited(h: Hasher, w: World) {
    && AllJustified(h, w.log, w.runs)
    && (forall j, k :: 0 <= j < k < |w.runs| ==> w.runs[j].at < w.runs[k].at)
    && StartsMatched(w.log, w.runs)
  }

  ghost predicate AllJustified(h: Hasher, log: seq<Event>, runs: seq<RunRecord>) {
    forall k :: 0 <= k < |runs| ==> Justified(h, log, runs[k])
  }

  ghost predicate StartsMatched(log: seq<Event>, runs: seq<RunRecord>) {
    forall i {:trigger StartedAt(runs, i)} :: 0 <= i < |log| && log[i].Start? ==> StartedAt(runs, i)
  }

  ghost predicate StartedAt(runs: seq<RunRecord>, i: int) {
    exists k :: 0 <= k < |runs| && runs[k].at == i
  }

  lemma {:induction false} AppendKeepsAudit(h: Hasher, w: World, events: seq<Event>)
    requires Audited(h, w)
    requires forall k :: 0 <= k < |events| ==> !events[k].Start?
    ensures Audited(h, w.(log := w.log + events))
  {
    var log := w.log + events;
    forall k | 0 <= k < |w.runs| ensures Justified(h, log, w.runs[k]) {
      JustifiedStable(h, w.log, events, w.runs[k]);
    }
  }

  lemma {:induction false} GateKeepsAudit(h: Hasher, w: World, action: SuggestedAction, now: real, call: ExecutorCall)
    requires Audited(h, w)
    ensures Audited(h, GateStep(h, w, action, now, call))
  {
    var v := Judge(h, w.log, action, now);
    var events := GateEvents(v, action, call);
    if v.Refuse? {
      AppendKeepsAudit(h, w, events);
      assert w.runs + [] == w.runs;
    } else {
      var r := RunRecord(action, now, |w.log|);
      FreshStartJustified(h, w.log, events[0], r);
      StartKeepsAudit(h, w, events[0], r);
      var w1 := World(w.log + [events[0]], w.runs + [r]);
      AppendKeepsAudit(h, w1, events[1..]);
      assert w1.log + events[1..] == w.log + events;
    }
  }

  lemma {:induction false} StartKeepsAudit(h: Hasher, w: World, start: Event, r: RunRecord)
    requires Audited(h, w)
    requires Justified(h, w.log + [start], r) && r.at == |w.log|
    ensures Audited(h, World(w.log + [start], w.runs + [r]))
  {
    StartKeepsJustified(h, w.log, w.runs, start, r);
    StartIsMatched(w.log, w.runs, start, r);
  }

  lemma {:induction false} StartKeepsJustified(h: Hasher, log: seq<Event>, runs: seq<RunRecord>, start: Event, r: RunRecord)
    requires AllJustified(h, log, runs) && Justified(h, log + [start], r)
    ensures AllJustified(h, log + [start], runs + [r])
  {
    forall k | 0 <= k < |runs| ensures Justified(h, log + [start], runs[k]) {
      JustifiedStable(h, log, [start], runs[k]);
    }
  }

  lemma {:induction false} StartIsMatched(log: seq<Event>, runs: seq<RunRecord>, start: Event, r: RunRecord)
    requires StartsMatched(log, runs) && r.at == |log|
    ensures StartsMatched(log + [start], runs + [r])
  {
    var more := runs + [r];
    forall i | 0 <= i < |log| + 1 && (log + [start])[i].Start? ensures StartedAt(more, i) {
      if i < |log| {
        assert StartedAt(runs, i);
        var k :| 0 <= k < |runs| && runs[k].at == i;
        assert more[k].at == i;
      } else {
        assert more[|runs|].at == i;
      }
    }
  }

  lemma {:induction false} JustifiedStable(h: Hasher, log: seq<Event>, more: seq<Event>, r: RunRecord)
    requires Justified(h, log, r)
    ensures Justified(h, log + more, r)
  {
    var p: nat, q: nat :| ApprovedBy(log, r.action.id, p, q, r.at) && Authorises(h, log[p], r);
    assert ApprovedBy(log + more, r.action.id, p, q, r.at);
  }

  lemma {:induction false} FreshStartJustified(h: Hasher, log: seq<Event>, start: Event, r: RunRecord)
    requires Judge(h, log, r.action, r.now).Run? && r.at == |log|
    requires start.Start? && start.id == r.action.id
    ensures Justified(h, log + [start], r)
  {
    var p, q := ApprovalWitness(log, r.action.id);
    assert ApprovedBy(log + [start], r.action.id, p, q, r.at);
    assert Authorises(h, (log + [start])[p], r);
  }

  /** Whatever mix of emissions, clicks (repeated, contradictory, late) and direct triggers
      arrives, every executor run stays justified by the history that precedes it. */
  lemma {:induction false} EveryRunIsAudited(h: Hasher, w: World, steps: seq<Step>)
    requires Audited(h, w)
    requires forall s :: s in steps ==> Legal(s)
    ensures Audited(h, RunFrom(h, w, steps))
    decreases |steps|
  {
    if steps == [] {
    } else {
      var s := steps[0];
      assert s in steps;
      match s {
        case Emit(e) => AppendKeepsAudit(h, w, [e]);
        case Trigger(action, now, call) => GateKeepsAudit(h, w, action, now, call);
        case Click(id, decision, approver, surface, now, call) =>
          if decision == "deny" {
            AppendKeepsAudit(h, w, [Denial(id, approver, "")]);
          } else if decision == "approve" && StateOf(w.log, id).Some? {
            AppendKeepsAudit(h, w, [Approval(id, approver, surface)]);
            GateKeepsAudit(h, w.(log := w.log + [Approval(id, approver, surface)]),
                           StateOf(w.log, id).value.action, now, call);
          }
      }
      EveryRunIsAudited(h, Next(h, w, s), steps[1..]);
    }
  }

  lemma {:induction false} FromEmptyJournal(h: Hasher, steps: seq<Step>)
    requires forall s :: s in steps ==> Legal(s)
    ensures Audited(h, RunFrom(h, World([], []), steps))
  {
    EveryRunIsAudited(h, World([], []), steps);
  }

  /** Single use: two runs for one action always have a fresh proposal of it between them. */
  lemma {:induction false} SingleUse(h: Hasher, w: World, j: nat, k: nat)
    requires Audited(h, w)
    requires j < k < |w.runs| && w.runs[j].action.id == w.runs[k].action.id
    ensures exists i :: w.runs[j].at < i < w.runs[k].at < |w.log| && w.log[i].Proposal?
                     && w.log[i].action.id == w.runs[k].action.id
  {
    var r1, r2 := w.runs[j], w.runs[k];
    var id := r2.action.id;
    var p1: nat, q1: nat :| ApprovedBy(w.log, id, p1, q1, r1.at);
    var p2: nat, q2: nat :| ApprovedBy(w.log, id, p2, q2, r2.at);
    StartConsumes(w.log, id, r1.at, r2.at, p1, q1, p2, q2);
  }

  /** With a collision-free hash and proposals hashed as proposed, what runs is what was approved. */
  lemma {:induction false} RunsApprovedContent(h: Hasher, w: World, r: RunRecord)
    requires Audited(h, w) && r in w.runs
    requires forall c1, c2 :: h(c1) == h(c2) ==> c1 == c2
    requires forall e :: e in w.log && e.Proposal? ==> e.action.paramsHash in {"", h(e.action.content)}
    ensures exists p: nat, q: nat :: ApprovedBy(w.log, r.action.id, p, q, r.at)
                                  && w.log[p].Proposal? && w.log[p].action.content == r.action.content
  {
    var p: nat, q: nat :| ApprovedBy(w.log, r.action.id, p, q, r.at) && Authorises(h, w.log[p], r);
    assert w.log[p] in w.log;
  }

  // ----- contradictory clicks: the first one decides --------------------------------

  function RunsOf(runs: seq<RunRecord>, id: string): nat {
    if runs == [] then 0
    else RunsOf(runs[..|runs| - 1], id) + if runs[|runs| - 1].action.id == id then 1 else 0
  }

  predicate Decides(s: Step, id: string) {
    s.Click? && s.id == id && s.decision in {"approve", "deny"}
  }

  /** Clicks and triggers on anything, and emissions that do not concern id. */
  predicate ClicksOnly(steps: seq<Step>, id: string) {
    forall s :: s in steps && s.Emit? ==> s.e.ActionId() != id
  }

  ghost predicate Settled(log: seq<Event>, id: string) {
    && StateOf(log, id).Some?
    && StateOf(log, id).value.status in
       {Status.Denied, Status.Expired, Status.Executing, Status.Done, Status.Failed}
  }

  lemma {:induction false} OtherEvents(log: seq<Event>, events: seq<Event>, id: string)
    requires forall i :: 0 <= i < |events| ==> events[i].ActionId() != id
    ensures StateOf(log + events, id) == StateOf(log, id)
  {
    if events == [] {
      assert log + events == log;
    } else {
      var n := |events| - 1;
      OtherEvents(log, events[..n], id);
      assert log + events == (log + events[..n]) + [events[n]];
      AppendTouchesOneAction(log + events[..n], events[n], id);
    }
  }

  lemma {:induction false} GateRunsOf(h: Hasher, w: World, action: SuggestedAction, now: real, call: ExecutorCall, id: string)
    ensures RunsOf(GateStep(h, w, action, now, call).runs, id)
         == RunsOf(w.runs, id) + if Judge(h, w.log, action, now).Run? && action.id == id then 1 else 0
  {
    var runs := GateStep(h, w, action, now, call).runs;
    if Judge(h, w.log, action, now).Run? {
      assert runs[..|w.runs|] == w.runs;
    } else {
      assert runs == w.runs;
    }
  }

  /** The gate leaves a state alone unless it is that of the presented action, and approved. */
  lemma {:induction false} GateElsewhere(h: Hasher, w: World, action: SuggestedAction, now: real, call: ExecutorCall, id: string)
    requires action.id != id || !HasStatus(w.log, id, Status.Approved)
    ensures StateOf(GateStep(h, w, action, now, call).log, id) == StateOf(w.log, id)
  {
    var events := GateEvents(Judge(h, w.log, action, now), action, call);
    if action.id != id {
      OtherEvents(w.log, events, id);
    } else {
      assert w.log + events == w.log;
    }
  }

  /** On an approved action the gate concludes, unless the presented content does not hash right. */
  lemma {:induction false} GateConcludes(h: Hasher, w: World, action: SuggestedAction, now: real, call: ExecutorCall)
    requires HasStatus(w.log, action.id, Status.Approved)
    ensures var log := GateStep(h, w, action, now, call).log;
            if Judge(h, w.log, action, now) == Refuse(DeniedHash) then StateOf(log, action.id) == StateOf(w.log, action.id)
            else Settled(log, action.id)
  {
    var v, id := Judge(h, w.log, action, now), action.id;
    var events := GateEvents(v, action, call);
    if |events| == 1 {
      AppendTouchesOneAction(w.log, events[0], id);
      assert events == [events[0]];
    } else {
      AppendTwo(w.log, events[0], events[1], id);
      assert events == [events[0], events[1]];
    }
  }

  lemma {:induction false} AppendTwo(log: seq<Event>, e1: Event, e2: Event, id: string)
    requires e1.ActionId() == id && e2.ActionId() == id
    ensures StateOf(log + [e1, e2], id) == Advance(Advance(StateOf(log, id), e1), e2)
  {
    AppendTouchesOneAction(log, e1, id);
    AppendTouchesOneAction(log + [e1], e2, id);
    assert log + [e1, e2] == (log + [e1]) + [e2];
  }

  lemma {:induction false} GateOnSettled(h: Hasher, w: World, action: SuggestedAction, now: real, call: ExecutorCall, id: string)
    requires Settled(w.log, id)
    ensures var t := GateStep(h, w, action, now, call);
            StateOf(t.log, id) == StateOf(w.log, id) && RunsOf(t.runs, id) == RunsOf(w.runs, id)
  {
    GateElsewhere(h, w, action, now, call, id);
    GateRunsOf(h, w, action, now, call, id);
  }

  /** Journaling a click on another action, or one a decided action ignores. */
  lemma {:induction false} IgnoredEvent(w: World, e: Event, id: string)
    requires e.Approval? || e.Denial?
    requires e.id != id || (StateOf(w.log, id).Some? && !Undecided(StateOf(w.log, id).value.status))
    ensures StateOf(w.log + [e], id) == StateOf(w.log, id)
  {
    AppendTouchesOneAction(w.log, e, id);
  }

  lemma {:induction false} SettledClick(h: Hasher, w: World, s: Step, id: string)
    requires Settled(w.log, id)
    requires s.Click? && s.decision == "approve" && StateOf(w.log, s.id).Some?
    ensures Settled(Next(h, w, s).log, id) && RunsOf(Next(h, w, s).runs, id) == RunsOf(w.runs, id)
  {
    var clicked := w.(log := w.log + [Approval(s.id, s.approver, s.surface)]);
    IgnoredEvent(w, Approval(s.id, s.approver, s.surface), id);
    GateOnSettled(h, clicked, StateOf(w.log, s.id).value.action, s.now, s.call, id);
  }

  lemma {:induction false} SettledStays(h: Hasher, w: World, s: Step, id: string)
    requires Settled(w.log, id) && ClicksOnly([s], id)
    ensures Settled(Next(h, w, s).log, id) && RunsOf(Next(h, w, s).runs, id) == RunsOf(w.runs, id)
  {
    match s {
      case Emit(e) =>
        assert s in [s];
        AppendTouchesOneAction(w.log, e, id);
      case Trigger(action, now, call) => GateOnSettled(h, w, action, now, call, id);
      case Click(a, decision, approver, _, _, _) =>
        IgnoredEvent(w, Denial(a, approver, ""), id);
        if decision == "approve" && StateOf(w.log, a).Some? { SettledClick(h, w, s, id); }
    }
  }

  /** Once denied, expired or consumed, an action is never executed again by clicks or triggers. */
  lemma {:induction false} SettledForever(h: Hasher, w: World, steps: seq<Step>, id: string)
    requires Settled(w.log, id) && ClicksOnly(steps, id)
    ensures Settled(RunFrom(h, w, steps).log, id)
    ensures RunsOf(RunFrom(h, w, steps).runs, id) == RunsOf(w.runs, id)
    decreases |steps|
  {
    if steps == [] {
    } else {
      assert steps[0] in steps;
      SettledStays(h, w, steps[0], id);
      SettledForever(h, Next(h, w, steps[0]), steps[1..], id);
    }
  }

  // ----- an approved action waits for a gate call that concludes ------------------------------

  /** A step that takes action id to the gate. */
  predicate Attempts(s: Step, id: string) {
    (s.Click? && s.id == id && s.decision == "approve") || (s.Trigger? && s.action.id == id)
  }

  /** The content it presents: a click presents the proposed one. */
  function Presented(st: ApprovalState, s: Step): Content
    requires !s.Emit?
  {
    if s.Click? then st.action.content else s.action.content
  }

  /** An attempt that comes too late, or that presents content with the approved hash. */
  predicate Conclusive(h: Hasher, st: ApprovalState, s: Step, id: string) {
    Attempts(s, id)
    && (!InTime(st.expiresAt, s.now) || h(Presented(st, s)) == ApprovedHash(h, st.action))
  }

  function FirstConclusive(h: Hasher, st: ApprovalState, steps: seq<Step>, id: string): (first: Option<Step>)
    ensures first.Some? ==> Conclusive(h, st, first.value, id)
  {
    if steps == [] then None
    else if Conclusive(h, st, steps[0], id) then Some(steps[0])
    else FirstConclusive(h, st, steps[1..], id)
  }

  /** One run if the concluding attempt comes in time. */
  function RunsBy(st: ApprovalState, concluding: Option<Step>): nat {
    if concluding.Some? && !concluding.value.Emit? && InTime(st.expiresAt, concluding.value.now) then 1 else 0
  }

  /** On an approved action the verdict is a hash mismatch, and nothing else, if the attempt does
      not conclude; otherwise it is to run exactly if the attempt is in time. */
  lemma {:induction false} JudgeApproved(h: Hasher, log: seq<Event>, action: SuggestedAction, now: real, call: ExecutorCall)
    requires HasStatus(log, action.id, Status.Approved)
    ensures var st, s, v := StateOf(log, action.id).value, Trigger(action, now, call), Judge(h, log, action, now);
            if Conclusive(h, st, s, action.id) then v != Refuse(DeniedHash) && (v.Run? <==> RunsBy(st, Some(s)) == 1)
            else v == Refuse(DeniedHash)
  {}

  lemma {:induction false} GateOnApproved(h: Hasher, w: World, action: SuggestedAction, now: real, call: ExecutorCall, id: string)
    requires HasStatus(w.log, id, Status.Approved)
    ensures Concludes(h, w, GateStep(h, w, action, now, call), Trigger(action, now, call), id)
  {
    GateRunsOf(h, w, action, now, call, id);
    if action.id == id {
      JudgeApproved(h, w.log, action, now, call);
      GateConcludes(h, w, action, now, call);
    } else {
      GateElsewhere(h, w, action, now, call, id);
    }
  }

  /** What step s does to an approved action: settle it if conclusive, else leave it. */
  ghost predicate Concludes(h: Hasher, w: World, t: World, s: Step, id: string)
    requires StateOf(w.log, id).Some?
  {
    var st := StateOf(w.log, id).value;
    if Conclusive(h, st, s, id) then
      Settled(t.log, id) && RunsOf(t.runs, id) == RunsOf(w.runs, id) + RunsBy(st, Some(s))
    else
      StateOf(t.log, id) == StateOf(w.log, id) && RunsOf(t.runs, id) == RunsOf(w.runs, id)
  }

  lemma {:induction false} ClickIsTrigger(h: Hasher, st: ApprovalState, s: Step, a: SuggestedAction, id: string)
    requires s.Click? && s.decision == "approve" && a.id == s.id && (s.id == id ==> a == st.action)
    ensures var trigger := Trigger(a, s.now, s.call);
            && (Conclusive(h, st, s, id) <==> Conclusive(h, st, trigger, id))
            && RunsBy(st, Some(s)) == RunsBy(st, Some(trigger))
  {}

  lemma {:induction false} SameConcludes(h: Hasher, w: World, clicked: World, t: World, s: Step, s': Step, id: string)
    requires StateOf(w.log, id).Some? && StateOf(clicked.log, id) == StateOf(w.log, id) && clicked.runs == w.runs
    requires var st := StateOf(w.log, id).value;
             (Conclusive(h, st, s, id) <==> Conclusive(h, st, s', id)) && RunsBy(st, Some(s)) == RunsBy(st, Some(s'))
    requires Concludes(h, clicked, t, s', id)
    ensures Concludes(h, w, t, s, id)
  {}

  lemma {:induction false} ApprovedClick(h: Hasher, w: World, s: Step, id: string)
    requires HasStatus(w.log, id, Status.Approved)
    requires s.Click? && s.decision == "approve" && StateOf(w.log, s.id).Some?
    ensures Concludes(h, w, Next(h, w, s), s, id)
  {
    var clicked := World(w.log + [Approval(s.id, s.approver, s.surface)], w.runs);
    var a := StateOf(w.log, s.id).value.action;
    IgnoredEvent(w, Approval(s.id, s.approver, s.surface), id);
    StateNamesItsAction(w.log, s.id);
    ClickIsTrigger(h, StateOf(w.log, id).value, s, a, id);
    GateOnApproved(h, clicked, a, s.now, s.call, id);
    SameConcludes(h, w, clicked, GateStep(h, clicked, a, s.now, s.call), s, Trigger(a, s.now, s.call), id);
  }

  lemma {:induction false} ApprovedStep(h: Hasher, w: World, s: Step, id: string)
    requires HasStatus(w.log, id, Status.Approved) && ClicksOnly([s], id)
    ensures Concludes(h, w, Next(h, w, s), s, id)
  {
    match s {
      case Emit(e) =>
        assert s in [s];
        AppendTouchesOneAction(w.log, e, id);
      case Trigger(action, now, call) => GateOnApproved(h, w, action, now, call, id);
      case Click(a, decision, approver, _, _, _) =>
        IgnoredEvent(w, Denial(a, approver, ""), id);
        if decision == "approve" && StateOf(w.log, a).Some? { ApprovedClick(h, w, s, id); }
    }
  }

  /** The first conclusive attempt settles an approved action, by running it if it is in time. */
  lemma {:induction false} FirstConclusiveSettles(h: Hasher, w: World, steps: seq<Step>, id: string)
    requires HasStatus(w.log, id, Status.Approved) && ClicksOnly(steps, id)
    ensures var st, t := StateOf(w.log, id).value, RunFrom(h, w, steps);
            var first := FirstConclusive(h, st, steps, id);
            && RunsOf(t.runs, id) == RunsOf(w.runs, id) + RunsBy(st, first)
            && if first.Some? then Settled(t.log, id) else StateOf(t.log, id) == StateOf(w.log, id)
    decreases |steps|
  {
    if steps == [] {
    } else {
      assert steps[0] in steps;
      ApprovedStep(h, w, steps[0], id);
      if Conclusive(h, StateOf(w.log, id).value, steps[0], id) {
        SettledForever(h, Next(h, w, steps[0]), steps[1..], id);
      } else {
        FirstConclusiveSettles(h, Next(h, w, steps[0]), steps[1..], id);
      }
    }
  }

  // ----- from an undecided proposal -------------------------------------------------------------

  /** The steps from the first decision on. */
  function FromDecision(steps: seq<Step>, id: string): (rest: seq<Step>)
    ensures rest != [] ==> Decides(rest[0], id)
  {
    if steps == [] || Decides(steps[0], id) then steps else FromDecision(steps[1..], id)
  }

  /** The attempt that settles it, given that the first decision approves. */
  function Concluding(h: Hasher, st: ApprovalState, steps: seq<Step>, id: string): Option<Step> {
    var rest := FromDecision(steps, id);
    if rest == [] || rest[0].Emit? || rest[0].Trigger? || rest[0].decision == "deny" then None
    else FirstConclusive(h, st, rest, id)
  }

  /** From an undecided proposal, however many clicks and triggers arrive on however many surfaces:
      the executor never runs if the first decision denies or none comes, and otherwise runs once
      exactly if the first conclusive attempt from that decision on is in time. */
  lemma {:induction false} FirstDecisionWins(h: Hasher, w: World, steps: seq<Step>, id: string)
    requires StateOf(w.log, id).Some? && Undecided(StateOf(w.log, id).value.status)
    requires ClicksOnly(steps, id)
    ensures var st, t := StateOf(w.log, id).value, RunFrom(h, w, steps);
            var rest, concluding := FromDecision(steps, id), Concluding(h, st, steps, id);
            && RunsOf(t.runs, id) == RunsOf(w.runs, id) + RunsBy(st, concluding)
            && (concluding.Some? || (rest != [] && rest[0].Click? && rest[0].decision == "deny") ==> Settled(t.log, id))
    decreases |steps|
  {
    if steps == [] {
    } else {
      assert steps[0] in steps;
      if Decides(steps[0], id) {
        DecidingStep(h, w, steps[0], id);
        if steps[0].decision == "deny" {
          SettledForever(h, Next(h, w, steps[0]), steps[1..], id);
        } else {
          AfterApproval(h, w, steps, id);
        }
      } else {
        IrrelevantStep(h, w, steps[0], id);
        FirstDecisionWins(h, Next(h, w, steps[0]), steps[1..], id);
      }
    }
  }

  /** What the deciding click does: a denial settles; an approval is followed by a gate call. */
  lemma {:induction false} DecidingStep(h: Hasher, w: World, s: Step, id: string)
    requires StateOf(w.log, id).Some? && Undecided(StateOf(w.log, id).value.status) && Decides(s, id)
    ensures var st, t := StateOf(w.log, id).value, Next(h, w, s);
            if s.decision == "deny" then Settled(t.log, id) && t.runs == w.runs
            else if Conclusive(h, st, s, id) then
              Settled(t.log, id) && RunsOf(t.runs, id) == RunsOf(w.runs, id) + RunsBy(st, Some(s))
            else
              && HasStatus(t.log, id, Status.Approved) && RunsOf(t.runs, id) == RunsOf(w.runs, id)
              && StateOf(t.log, id).value.action == st.action && StateOf(t.log, id).value.expiresAt == st.expiresAt
  {
    StateNamesItsAction(w.log, id);
    AppendTouchesOneAction(w.log, Denial(id, s.approver, ""), id);
    AppendTouchesOneAction(w.log, Approval(id, s.approver, s.surface), id);
    if s.decision == "approve" {
      var clicked := w.(log := w.log + [Approval(id, s.approver, s.surface)]);
      GateOnApproved(h, clicked, StateOf(w.log, id).value.action, s.now, s.call, id);
    }
  }

  lemma {:induction false} AfterApproval(h: Hasher, w: World, steps: seq<Step>, id: string)
    requires StateOf(w.log, id).Some? && Undecided(StateOf(w.log, id).value.status) && ClicksOnly(steps, id)
    requires steps != [] && Decides(steps[0], id) && steps[0].decision == "approve"
    ensures var st, t := StateOf(w.log, id).value, RunFrom(h, w, steps);
            var first := FirstConclusive(h, st, steps, id);
            RunsOf(t.runs, id) == RunsOf(w.runs, id) + RunsBy(st, first) && (first.Some? ==> Settled(t.log, id))
  {
    var st, t := StateOf(w.log, id).value, Next(h, w, steps[0]);
    DecidingStep(h, w, steps[0], id);
    if Conclusive(h, st, steps[0], id) {
      SettledForever(h, t, steps[1..], id);
    } else {
      SameConclusion(h, st, StateOf(t.log, id).value, steps[1..], id);
      FirstConclusiveSettles(h, t, steps[1..], id);
    }
  }

  /** Only the proposed action and its deadline matter to what is conclusive. */
  lemma {:induction false} SameConclusion(h: Hasher, st: ApprovalState, st': ApprovalState, steps: seq<Step>, id: string)
    requires st.action == st'.action && st.expiresAt == st'.expiresAt
    ensures FirstConclusive(h, st, steps, id) == FirstConclusive(h, st', steps, id)
  {
    if steps == [] {
    } else {
      SameConclusion(h, st, st', steps[1..], id);
    }
  }

  /** For a proposal hashed as proposed the first decision alone settles it: the executor runs
      once if that decision approves it in time, and never otherwise. */
  lemma {:induction false} FirstClickSettles(h: Hasher, w: World, steps: seq<Step>, id: string)
    requires StateOf(w.log, id).Some? && Undecided(StateOf(w.log, id).value.status)
    requires var a := StateOf(w.log, id).value.action; ApprovedHash(h, a) == h(a.content)
    requires ClicksOnly(steps, id)
    ensures var st, t := StateOf(w.log, id).value, RunFrom(h, w, steps);
            var rest := FromDecision(steps, id);
            && RunsOf(t.runs, id) == RunsOf(w.runs, id)
               + (if rest != [] && rest[0].Click? && rest[0].decision == "approve" && InTime(st.expiresAt, rest[0].now) then 1 else 0)
            && (rest != [] ==> Settled(t.log, id))
  {
    FirstDecisionWins(h, w, steps, id);
    var st, rest := StateOf(w.log, id).value, FromDecision(steps, id);
    if rest != [] && rest[0].decision == "approve" {
      assert Conclusive(h, st, rest[0], id);
      assert FirstConclusive(h, st, rest, id) == Some(rest[0]);
    }
  }

  lemma {:induction false} IrrelevantStep(h: Hasher, w: World, s: Step, id: string)
    requires StateOf(w.log, id).Some? && Undecided(StateOf(w.log, id).value.status)
    requires ClicksOnly([s], id) && !Decides(s, id)
    ensures StateOf(Next(h, w, s).log, id) == StateOf(w.log, id)
    ensures RunsOf(Next(h, w, s).runs, id) == RunsOf(w.runs, id)
  {
    match s {
      case Emit(e) =>
        assert s in [s];
        AppendTouchesOneAction(w.log, e, id);
      case Trigger(action, now, call) => GateOnUndecided(h, w, action, now, call, id);
      case Click(a, decision, approver, surface, now, call) =>
        if a != id { IgnoredEvent(w, Denial(a, approver, ""), id); }
        if decision == "approve" && StateOf(w.log, a).Some? {
          IgnoredEvent(w, Approval(a, approver, surface), id);
          var clicked := w.(log := w.log + [Approval(a, approver, surface)]);
          GateOnUndecided(h, clicked, StateOf(w.log, a).value.action, now, call, id);
        }
    }
  }

  lemma {:induction false} GateOnUndecided(h: Hasher, w: World, action: SuggestedAction, now: real, call: ExecutorCall, id: string)
    requires StateOf(w.log, id).Some? && Undecided(StateOf(w.log, id).value.status)
    ensures var t := GateStep(h, w, action, now, call);
            StateOf(t.log, id) == StateOf(w.log, id) && RunsOf(t.runs, id) == RunsOf(w.runs, id)
  {
    GateElsewhere(h, w, action, now, call, id);
    GateRunsOf(h, w, action, now, call, id);
  }

  // ----- single use is per proposal -----------------------------------------------------------

  lemma {:induction false} ProposeAndApprove(h: Hasher, w: World, a: SuggestedAction, click: Step)
    requires a.paramsHash in {"", h(a.content)}
    requires Decides(click, a.id) && click.decision == "approve"
    ensures RunsOf(RunFrom(h, w, [Emit(Proposal(a, None)), click]).runs, a.id) == RunsOf(w.runs, a.id) + 1
  {
    var propose := Emit(Proposal(a, None));
    var offered := Next(h, w, propose);
    AppendTouchesOneAction(w.log, propose.e, a.id);
    assert [propose, click][1..] == [click];
    FirstClickSettles(h, offered, [click], a.id);
  }

  /** Proposing an id again does make a further execution possible: two rounds of proposal and
      approval run it twice, from any world. */
  lemma {:induction false} ReproposalRunsAgain(h: Hasher, w: World, a: SuggestedAction, click: Step, again: Step)
    requires a.paramsHash in {"", h(a.content)}
    requires Decides(click, a.id) && click.decision == "approve"
    requires Decides(again, a.id) && again.decision == "approve"
    ensures var propose := Emit(Proposal(a, None));
            RunsOf(RunFrom(h, w, [propose, click, propose, again]).runs, a.id) == RunsOf(w.runs, a.id) + 2
  {
    var propose := Emit(Proposal(a, None));
    var once := RunFrom(h, w, [propose, click]);
    ProposeAndApprove(h, w, a, click);
    ProposeAndApprove(h, once, a, again);
    RunFromAppend(h, w, [propose, click], [propose, again]);
    assert [propose, click] + [propose, again] == [propose, click, propose, again];
  }

  lemma {:induction false} RunFromAppend(h: Hasher, w: World, xs: seq<Step>, ys: seq<Step>)
    ensures RunFrom(h, w, xs + ys) == RunFrom(h, RunFrom(h, w, xs), ys)
    decreases |xs|
  {
    if xs == [] {
      assert xs + ys == ys;
    } else {
      assert (xs + ys)[0] == xs[0] && (xs + ys)[1..] == xs[1..] + ys;
      RunFromAppend(h, Next(h, w, xs[0]), xs[1..], ys);
    }
  }
}
