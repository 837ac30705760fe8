/** The append-only action journal (sentinel/actions/journal.py) and the records it
    holds (sentinel/actions/models.py). Current state is never stored: it is a fold. */
module Journal {
  import opened Common

  datatype ActionKind = Restart | Scale | RemoveImpairment | RevertChange | OpenTicket | PageOncall

  datatype Param = Text(text: string) | Number(number: int)

  /** What an approval is bound to. */
  datatype Content = Content(kind: ActionKind, target: string, params: map<string, Param>)

  datatype SuggestedAction = SuggestedAction(id: string, content: Content, paramsHash: string)

  datatype Status = Proposed | Posted | Approved | Denied | Expired | Executing | Done | Failed

  datatype Outcome = Outcome(ok: bool, before: Option<real>, after: Option<real>, error: string)

  datatype ApprovalState = ApprovalState(
    action: SuggestedAction,
    status: Status,
    approver: Option<string>,
    surface: Option<string>,
    expiresAt: Option<real>,
    outcome: Option<Outcome>)

  datatype Event =
    | Proposal(action: SuggestedAction, expiresAt: Option<real>)
    | Post(id: string, surface: string, ref: string)
    | Approval(id: string, approver: string, surface: string)
    | Denial(id: string, approver: string, reason: string)
    | Expiry(id: string)
    | Start(id: string, backend: string, preview: string)
    | Finish(id: string, outcome: Outcome)
    | NearMiss(id: string, attempted: string, actor: string, why: string)
  {
    function ActionId(): string {
      if Proposal? then action.id else id
    }
  }

  predicate Terminal(s: Status) {
    s in {Status.Denied, Status.Expired, Status.Done, Status.Failed}
  }

  predicate Undecided(s: Status) {
    s in {Status.Proposed, Status.Posted}
  }

  /** The effect of one of an action's own events on that action's state. */
  function Advance(st: Option<ApprovalState>, e: Event): Option<ApprovalState> {
    if e.Proposal? then
      Some(ApprovalState(e.action, Status.Proposed, None, None, e.expiresAt, None))
    else if st.None? then
      None
    else
      Some(Transition(st.value, e))
  }

  function Transition(s: ApprovalState, e: Event): ApprovalState
    requires !e.Proposal?
  {
    match e
    case Post(_, surface, _) =>
      if s.status == Status.Proposed then s.(status := Status.Posted, surface := Some(surface)) else s
    case Approval(_, approver, surface) =>
      if Undecided(s.status)
      then s.(status := Status.Approved, approver := Some(approver), surface := Some(surface)) else s
    case Denial(_, approver, _) =>
      if Undecided(s.status) then s.(status := Status.Denied, approver := Some(approver)) else s
    case Expiry(_) =>
      if Undecided(s.status) || s.status == Status.Approved then s.(status := Status.Expired) else s
    case Start(_, _, _) =>
      if s.status == Status.Approved then s.(status := Status.Executing) else s
    case Finish(_, outcome) =>
      if s.status == Status.Executing
      then s.(status := if outcome.ok then Status.Done else Status.Failed, outcome := Some(outcome)) else s
    case NearMiss(_, _, _, _) => s
  }

  function Apply(states: map<string, ApprovalState>, e: Event): map<string, ApprovalState> {
    var next := Advance(Get(states, e.ActionId()), e);
    if next.None? then states else states[e.ActionId() := next.value]
  }

  function Fold(log: seq<Event>): map<string, ApprovalState> {
    if log == [] then map[] else Apply(Fold(log[..|log| - 1]), log[|log| - 1])
  }

  function StateOf(log: seq<Event>, id: string): Option<ApprovalState> {
    Get(Fold(log), id)
  }

  predicate HasStatus(log: seq<Event>, id: string, s: Status) {
    var st := StateOf(log, id);
    st.Some? && st.value.status == s
  }

  /** The journal object. Its file is the sequence of records it has appended. */
  class ActionJournal {
    var log: seq<Event>

    constructor ()
      ensures log == []
    {
      log := [];
    }

    method Append(e: Event)
      modifies this
      ensures log == old(log) + [e]
    {
      log := log + [e];
    }

    /** The source's loop: a dictionary of states, updated event by event. */
    method FoldEvents() returns (states: map<string, ApprovalState>)
      ensures states == Fold(log)
    {
      states := map[];
      for i := 0 to |log|
        invariant states == Fold(log[..i])
      {
        var e := log[i];
        assert log[..i + 1][..i] == log[..i];
        var id := e.ActionId();
        if e.Proposal? {
          states := states[id := ApprovalState(e.action, Status.Proposed, None, None, e.expiresAt, None)];
        } else if id in states {
          var st := states[id];
          if e.Post? && st.status == Status.Proposed {
            st := st.(status := Status.Posted, surface := Some(e.surface));
          } else if e.Approval? && Undecided(st.status) {
            st := st.(status := Status.Approved, approver := Some(e.approver), surface := Some(e.surface));
          } else if e.Denial? && Undecided(st.status) {
            st := st.(status := Status.Denied, approver := Some(e.approver));
          } else if e.Expiry? && (Undecided(st.status) || st.status == Status.Approved) {
            st := st.(status := Status.Expired);
          } else if e.Start? && st.status == Status.Approved {
            st := st.(status := Status.Executing);
          } else if e.Finish? && st.status == Status.Executing {
            st := st.(status := if e.outcome.ok then Status.Done else Status.Failed, outcome := Some(e.outcome));
          }
          states := states[id := st];
        }
      }
      assert log[..|log|] == log;
    }

    method CurrentState(id: string) returns (st: Option<ApprovalState>)
      ensures st == StateOf(log, id)
    {
      var states := FoldEvents();
      st := Get(states, id);
    }

    method IsTerminal(id: string) returns (terminal: bool)
      ensures terminal <==> exists s :: HasStatus(log, id, s) && Terminal(s)
    {
      var st := CurrentState(id);
      terminal := st.Some? && Terminal(st.value.status);
      assert st.Some? ==> HasStatus(log, id, st.value.status);
    }
  }

  // ----- the fold is incremental and actions do not interfere ---------------------

  /** Appending an event advances its own action and leaves every other action alone. */
  lemma {:induction false} AppendTouchesOneAction(log: seq<Event>, e: Event, id: string)
    ensures StateOf(log + [e], id)
         == if e.ActionId() == id then Advance(StateOf(log, id), e) else StateOf(log, id)
  {
    assert (log + [e])[..|log|] == log;
  }

  function Own(log: seq<Event>, id: string): seq<Event> {
    if log == [] then []
    else
      var e := log[|log| - 1];
      Own(log[..|log| - 1], id) + if e.ActionId() == id then [e] else []
  }

  /** An action's state depends on its own events only. */
  lemma {:induction false} OwnEventsSuffice(log: seq<Event>, id: string)
    ensures StateOf(log, id) == StateOf(Own(log, id), id)
  {
    if log == [] {
    } else {
      var n := |log| - 1;
      OwnEventsSuffice(log[..n], id);
      assert log == log[..n] + [log[n]];
      AppendTouchesOneAction(log[..n], log[n], id);
      if log[n].ActionId() == id {
        AppendTouchesOneAction(Own(log[..n], id), log[n], id);
      } else {
        assert Own(log, id) == Own(log[..n], id);
      }
    }
  }

  /** So any two interleavings that agree on an action's events agree on its state. */
  lemma {:induction false} InterleavingIsIrrelevant(log1: seq<Event>, log2: seq<Event>, id: string)
    requires Own(log1, id) == Own(log2, id)
    ensures StateOf(log1, id) == StateOf(log2, id)
  {
    OwnEventsSuffice(log1, id);
    OwnEventsSuffice(log2, id);
  }

  ghost predicate NoProposal(suffix: seq<Event>, id: string) {
    forall e :: e in suffix && e.Proposal? ==> e.action.id != id
  }

  /** A terminal status absorbs everything but a new proposal of the same action. */
  lemma {:induction false} TerminalAbsorbs(log: seq<Event>, suffix: seq<Event>, id: string)
    requires StateOf(log, id).Some? && Terminal(StateOf(log, id).value.status)
    requires NoProposal(suffix, id)
    ensures StateOf(log + suffix, id) == StateOf(log, id)
  {
    if suffix == [] {
      assert log + suffix == log;
    } else {
      var n := |suffix| - 1;
      TerminalAbsorbs(log, suffix[..n], id);
      assert log + suffix == (log + suffix[..n]) + [suffix[n]];
      AppendTouchesOneAction(log + suffix[..n], suffix[n], id);
    }
  }

  /** The state of an action carries that action. */
  lemma {:induction false} StateNamesItsAction(log: seq<Event>, id: string)
    ensures StateOf(log, id).Some? ==> StateOf(log, id).value.action.id == id
  {
    if log == [] {
    } else {
      var n := |log| - 1;
      assert log == log[..n] + [log[n]];
      StateNamesItsAction(log[..n], id);
      AppendTouchesOneAction(log[..n], log[n], id);
    }
  }

  // ----- what "undecided" and "approved" mean in terms of the raw history ----------

  // Each predicate speaks of the first n events of the journal.

  /** p is the position of the proposal in force for id. */
  ghost predicate InForce(log: seq<Event>, id: string, p: nat, n: nat) {
    && p < n <= |log| && log[p].Proposal? && log[p].action.id == id
    && forall i :: p < i < n && log[i].ActionId() == id ==> !log[i].Proposal?
  }

  /** Proposed at p and neither approved, denied nor expired since. */
  ghost predicate OpenSince(log: seq<Event>, id: string, p: nat, n: nat) {
    && InForce(log, id, p, n)
    && forall i :: p < i < n && log[i].ActionId() == id ==>
         !log[i].Approval? && !log[i].Denial? && !log[i].Expiry?
  }

  /** Proposed at p, first decided by the approval at q, and not expired nor started since. */
  ghost predicate ApprovedBy(log: seq<Event>, id: string, p: nat, q: nat, n: nat) {
    && q < n <= |log| && log[q].Approval? && log[q].id == id
    && OpenSince(log, id, p, q)
    && forall i :: q < i < n && log[i].ActionId() == id ==>
         !log[i].Proposal? && !log[i].Expiry? && !log[i].Start?
  }

  /** The folded state names who approved at q, and where. */
  ghost predicate CarriesApproval(log: seq<Event>, id: string, q: nat) {
    && q < |log| && log[q].Approval? && StateOf(log, id).Some?
    && StateOf(log, id).value.approver == Some(log[q].approver)
    && StateOf(log, id).value.surface == Some(log[q].surface)
  }

  /** The folded state still carries the content and deadline proposed at p. */
  ghost predicate CarriesProposal(log: seq<Event>, id: string, p: nat) {
    && p < |log| && log[p].Proposal? && StateOf(log, id).Some?
    && StateOf(log, id).value.action == log[p].action
    && StateOf(log, id).value.expiresAt == log[p].expiresAt
  }

  /** What the next lemma establishes of a journal. */
  ghost predicate FoldKnowsOpen(log: seq<Event>, id: string) {
    && ((StateOf(log, id).Some? && Undecided(StateOf(log, id).value.status)) <==> SomeOpen(log, id))
    && forall p: nat :: OpenSince(log, id, p, |log|) ==> CarriesProposal(log, id, p)
  }

  ghost predicate SomeOpen(log: seq<Event>, id: string) {
    exists p: nat :: OpenSince(log, id, p, |log|)
  }

  /** The folded status is "proposed" or "posted" exactly when the history holds a proposal in
      force that nobody has decided, and the state carries that proposal. */
  lemma {:induction false} UndecidedIffOpen(log: seq<Event>, id: string)
    ensures FoldKnowsOpen(log, id)
  {
    if log == [] {
    } else {
      var n := |log| - 1;
      var was, e := log[..n], log[n];
      assert log == was + [e];
      UndecidedIffOpen(was, id);
      AppendTouchesOneAction(was, e, id);
      if e.ActionId() != id || e.Post? || e.Start? || e.Finish? || e.NearMiss? {
        StillOpen(was, e, id);
      } else if e.Proposal? {
        NewlyOpen(was, e, id);
      } else {
        NoLongerOpen(was, e, id);
      }
    }
  }

  lemma {:induction false} StillOpen(was: seq<Event>, e: Event, id: string)
    requires FoldKnowsOpen(was, id)
    requires e.ActionId() != id || e.Post? || e.Start? || e.Finish? || e.NearMiss?
    requires StateOf(was + [e], id) == if e.ActionId() == id then Advance(StateOf(was, id), e) else StateOf(was, id)
    ensures FoldKnowsOpen(was + [e], id)
  {
    var log := was + [e];
    assert log[|was|] == e;
    forall p: nat ensures OpenSince(log, id, p, |log|) <==> OpenSince(was, id, p, |was|) {
      if p <= |was| { OpenPrefix(was, e, id, p, |was|); }
    }
  }

  lemma {:induction false} NewlyOpen(was: seq<Event>, e: Event, id: string)
    requires e.Proposal? && e.action.id == id && StateOf(was + [e], id) == Advance(StateOf(was, id), e)
    ensures FoldKnowsOpen(was + [e], id)
  {
    var log := was + [e];
    assert log[|was|] == e && OpenSince(log, id, |was|, |log|);
    forall p: nat | OpenSince(log, id, p, |log|) ensures p == |was| {}
  }

  lemma {:induction false} NoLongerOpen(was: seq<Event>, e: Event, id: string)
    requires e.ActionId() == id && (e.Approval? || e.Denial? || e.Expiry?)
    requires StateOf(was + [e], id) == Advance(StateOf(was, id), e)
    ensures FoldKnowsOpen(was + [e], id)
  {
    var log := was + [e];
    assert log[|was|] == e;
    forall p: nat ensures !OpenSince(log, id, p, |log|) {}
  }

  lemma {:induction false} OpenPrefix(was: seq<Event>, e: Event, id: string, p: nat, q: nat)
    requires q <= |was|
    ensures OpenSince(was + [e], id, p, q) <==> OpenSince(was, id, p, q)
  {
    assert forall i {:trigger was[i]} :: 0 <= i < |was| ==> (was + [e])[i] == was[i];
  }

  ghost predicate SomeApproval(log: seq<Event>, id: string) {
    exists p: nat, q: nat :: ApprovedBy(log, id, p, q, |log|)
  }

  ghost predicate ApprovalsCarry(log: seq<Event>, id: string) {
    forall p: nat, q: nat :: ApprovedBy(log, id, p, q, |log|) ==> CarriesProposal(log, id, p) && CarriesApproval(log, id, q)
  }

  /** What the next lemma establishes of a journal. */
  ghost predicate FoldKnowsApprovals(log: seq<Event>, id: string) {
    (HasStatus(log, id, Status.Approved) <==> SomeApproval(log, id)) && ApprovalsCarry(log, id)
  }

  /** The folded status is "approved" exactly when the history holds a proposal, a first
      decision that is an approval, and nothing that consumed or revoked it. */
  lemma {:induction false} ApprovedIffHistory(log: seq<Event>, id: string)
    ensures HasStatus(log, id, Status.Approved) <==> SomeApproval(log, id)
    ensures ApprovalsCarry(log, id)
  {
    if log == [] {
    } else {
      var n := |log| - 1;
      var was, e := log[..n], log[n];
      assert log == was + [e];
      ApprovedIffHistory(was, id);
      AppendTouchesOneAction(was, e, id);
      if e.ActionId() != id || e.Post? || e.Denial? || e.Finish? || e.NearMiss? {
        IdleEvent(was, e, id);
      } else if e.Approval? {
        UndecidedIffOpen(was, id);
        ApprovalEvent(was, e, id);
      } else {
        EndingEvent(was, e, id);
      }
    }
  }

  /** An event that neither grants nor ends an approval leaves those in force. */
  lemma {:induction false} IdleEvent(was: seq<Event>, e: Event, id: string)
    requires e.ActionId() != id || e.Post? || e.Denial? || e.Finish? || e.NearMiss?
    requires FoldKnowsApprovals(was, id)
    requires StateOf(was + [e], id) == if e.ActionId() == id then Advance(StateOf(was, id), e) else StateOf(was, id)
    ensures FoldKnowsApprovals(was + [e], id)
  {
    var log := was + [e];
    forall p: nat, q: nat ensures ApprovedBy(log, id, p, q, |log|) <==> ApprovedBy(was, id, p, q, |was|) {
      SameApproval(was, e, id, p, q);
    }
  }

  lemma {:induction false} SameApproval(was: seq<Event>, e: Event, id: string, p: nat, q: nat)
    requires e.ActionId() != id || e.Post? || e.Denial? || e.Finish? || e.NearMiss?
    ensures ApprovedBy(was + [e], id, p, q, |was| + 1) <==> ApprovedBy(was, id, p, q, |was|)
  {
    var log := was + [e];
    assert log[|was|] == e;
    assert forall i {:trigger was[i]} :: 0 <= i < |was| ==> log[i] == was[i];
    if q < |was| { OpenPrefix(was, e, id, p, q); }
  }

  /** An approval decides exactly an open proposal; one already in force stays in force. */
  lemma {:induction false} ApprovalEvent(was: seq<Event>, e: Event, id: string)
    requires e.Approval? && e.id == id
    requires FoldKnowsApprovals(was, id)
    requires FoldKnowsOpen(was, id)
    requires StateOf(was + [e], id) == Advance(StateOf(was, id), e)
    ensures FoldKnowsApprovals(was + [e], id)
  {
    var log := was + [e];
    forall p: nat, q: nat
      ensures ApprovedBy(log, id, p, q, |log|)
         <==> if q == |was| then OpenSince(was, id, p, |was|) else ApprovedBy(was, id, p, q, |was|)
    {
      ApprovalGiven(was, e, id, p, q);
    }
    if exists p: nat :: OpenSince(was, id, p, |was|) {
      var p: nat :| OpenSince(was, id, p, |was|);
      assert ApprovedBy(log, id, p, |was|, |log|);
    }
    if SomeApproval(was, id) {
      var p: nat, q: nat :| ApprovedBy(was, id, p, q, |was|);
      assert ApprovedBy(log, id, p, q, |log|);
    }
  }

  lemma {:induction false} ApprovalGiven(was: seq<Event>, e: Event, id: string, p: nat, q: nat)
    requires e.Approval? && e.id == id
    ensures ApprovedBy(was + [e], id, p, q, |was| + 1)
       <==> if q == |was| then OpenSince(was, id, p, |was|) else ApprovedBy(was, id, p, q, |was|)
  {
    var log := was + [e];
    assert log[|was|] == e;
    assert forall i {:trigger was[i]} :: 0 <= i < |was| ==> log[i] == was[i];
    if q <= |was| { OpenPrefix(was, e, id, p, q); }
  }

  /** After a proposal, an expiry or a start no approval is in force. */
  lemma {:induction false} EndingEvent(was: seq<Event>, e: Event, id: string)
    requires e.ActionId() == id && (e.Proposal? || e.Expiry? || e.Start?)
    requires StateOf(was + [e], id) == Advance(StateOf(was, id), e)
    ensures FoldKnowsApprovals(was + [e], id)
  {
    var log := was + [e];
    assert log[|was|] == e;
    forall p: nat, q: nat ensures !ApprovedBy(log, id, p, q, |log|) {
      assert q < |was| ==> log[|was|].ActionId() == id;
    }
  }

  /** Open since p, and first posted at k. */
  ghost predicate PostedBy(log: seq<Event>, id: string, p: nat, k: nat, n: nat) {
    && OpenSince(log, id, p, n) && p < k < n && log[k].Post? && log[k].id == id
    && forall i :: p < i < k && log[i].ActionId() == id ==> !log[i].Post?
  }

  ghost predicate FoldKnowsPosts(log: seq<Event>, id: string) {
    && (HasStatus(log, id, Status.Posted) <==> exists p: nat, k: nat :: PostedBy(log, id, p, k, |log|))
    && forall p: nat, k: nat :: PostedBy(log, id, p, k, |log|) ==> StateOf(log, id).value.surface == Some(log[k].surface)
  }

  lemma {:induction false} PostStep(was: seq<Event>, e: Event, id: string, p: nat, k: nat)
    ensures PostedBy(was + [e], id, p, k, |was| + 1) <==>
      if k == |was| then e.Post? && e.id == id && OpenSince(was, id, p, |was|) && forall j: nat :: !PostedBy(was, id, p, j, |was|)
      else PostedBy(was, id, p, k, |was|) && (e.ActionId() != id || e.Post? || e.Start? || e.Finish? || e.NearMiss?)
  {
    var log := was + [e];
    assert log[|was|] == e;
    assert forall i {:trigger was[i]} :: 0 <= i < |was| ==> log[i] == was[i];
    if p < |was| { OpenPrefix(was, e, id, p, |was|); }
    if k == |was| && OpenSince(was, id, p, |was|) { FirstPost(was, id, p, |was|); }
  }

  lemma {:induction false} FirstPost(log: seq<Event>, id: string, p: nat, n: nat)
    requires p < n <= |log| && OpenSince(log, id, p, |log|)
    ensures (forall i :: p < i < n && log[i].ActionId() == id ==> !log[i].Post?) <==>
              forall j: nat :: j < n ==> !PostedBy(log, id, p, j, |log|)
  {
    if n > p + 1 {
      FirstPost(log, id, p, n - 1);
      assert log[n - 1].Post? && log[n - 1].id == id && (forall i :: p < i < n - 1 && log[i].ActionId() == id ==> !log[i].Post?)
        ==> PostedBy(log, id, p, n - 1, |log|);
    }
  }

  /** Posted exactly if undecided and posted since it was proposed; the first post says where. */
  lemma {:induction false} PostedIff(log: seq<Event>, id: string)
    ensures FoldKnowsPosts(log, id)
  {
    if log == [] {
    } else {
      var n := |log| - 1;
      var was, e := log[..n], log[n];
      assert log == was + [e];
      PostedIff(was, id);
      UndecidedIffOpen(was, id);
      AppendTouchesOneAction(was, e, id);
      PostsStep(was, e, id);
    }
  }

  lemma {:induction false} PostsStep(was: seq<Event>, e: Event, id: string)
    requires FoldKnowsPosts(was, id) && FoldKnowsOpen(was, id)
    requires StateOf(was + [e], id) == if e.ActionId() == id then Advance(StateOf(was, id), e) else StateOf(was, id)
    ensures FoldKnowsPosts(was + [e], id)
  {
    var log := was + [e];
    assert log[|was|] == e;
    SomePostStep(was, e, id);
    forall p: nat, k: nat | PostedBy(log, id, p, k, |log|) ensures StateOf(log, id).value.surface == Some(log[k].surface) {
      PostStep(was, e, id, p, k);
      if k < |was| { assert log[k] == was[k]; }
    }
  }

  ghost predicate SomePost(log: seq<Event>, id: string) {
    exists p: nat, k: nat :: PostedBy(log, id, p, k, |log|)
  }

  lemma {:induction false} SomePostStep(was: seq<Event>, e: Event, id: string)
    ensures SomePost(was + [e], id) <==>
      if e.ActionId() == id && e.Post? then SomeOpen(was, id)
      else SomePost(was, id) && (e.ActionId() != id || e.Start? || e.Finish? || e.NearMiss?)
  {
    var log := was + [e];
    if SomePost(log, id) {
      var p: nat, k: nat :| PostedBy(log, id, p, k, |log|);
      PostStep(was, e, id, p, k);
      assert OpenSince(was, id, p, |was|);
    }
    if SomePost(was, id) && (e.ActionId() != id || e.Post? || e.Start? || e.Finish? || e.NearMiss?) {
      var p: nat, k: nat :| PostedBy(was, id, p, k, |was|);
      PostStep(was, e, id, p, k);
    } else if e.ActionId() == id && e.Post? && SomeOpen(was, id) {
      var p: nat :| OpenSince(was, id, p, |was|);
      PostStep(was, e, id, p, |was|);
    }
  }

  // ----- every other status, and who brought it about ------------------------------------------------

  /** Event k is the action's own and the last but for such as change nothing: no later proposal. */
  ghost predicate LastWord(log: seq<Event>, id: string, k: nat) {
    && k < |log| && log[k].ActionId() == id
    && forall i :: k < i < |log| && log[i].ActionId() == id ==> !log[i].Proposal?
  }

  /** Denied at k: a first decision, on a proposal in force. */
  ghost predicate DeniedAt(log: seq<Event>, id: string, k: nat) {
    LastWord(log, id, k) && log[k].Denial? && exists p: nat :: OpenSince(log, id, p, k)
  }

  /** Expired at k: undecided or approved until then. */
  ghost predicate ExpiredAt(log: seq<Event>, id: string, k: nat) {
    && LastWord(log, id, k) && log[k].Expiry?
    && ((exists p: nat :: OpenSince(log, id, p, k)) || exists p: nat, q: nat :: ApprovedBy(log, id, p, q, k))
  }

  /** Started at k on an approval in force, and no result by n. */
  ghost predicate StartedAt(log: seq<Event>, id: string, k: nat, n: nat) {
    && k < n <= |log| && log[k].Start? && log[k].id == id && (exists p: nat, q: nat :: ApprovedBy(log, id, p, q, k))
    && forall i :: k < i < n && log[i].ActionId() == id ==> !log[i].Proposal? && !log[i].Finish?
  }

  /** Finished at k, the first result after a start. */
  ghost predicate FinishedAt(log: seq<Event>, id: string, k: nat) {
    LastWord(log, id, k) && log[k].Finish? && exists s: nat :: StartedAt(log, id, s, k)
  }

  lemma {:induction false} OpenIsLocal(log: seq<Event>, id: string, p: nat, k: nat)
    requires k <= |log|
    ensures OpenSince(log, id, p, k) <==> OpenSince(log[..k], id, p, k)
  {
    assert forall i {:trigger log[i]} :: 0 <= i < k ==> log[..k][i] == log[i];
  }

  lemma {:induction false} ApprovalIsLocal(log: seq<Event>, id: string, p: nat, q: nat, k: nat)
    requires k <= |log|
    ensures ApprovedBy(log, id, p, q, k) <==> ApprovedBy(log[..k], id, p, q, k)
  {
    assert forall i {:trigger log[i]} :: 0 <= i < k ==> log[..k][i] == log[i];
    if q < k {
      OpenIsLocal(log, id, p, q);
      OpenIsLocal(log[..k], id, p, q);
      assert log[..k][..q] == log[..q];
    }
  }

  lemma {:induction false} StartIsLocal(log: seq<Event>, id: string, s: nat, k: nat)
    requires k <= |log|
    ensures StartedAt(log, id, s, k) <==> StartedAt(log[..k], id, s, k)
  {
    assert forall i {:trigger log[i]} :: 0 <= i < k ==> log[..k][i] == log[i];
    if s < k {
      forall p: nat, q: nat ensures ApprovedBy(log, id, p, q, s) <==> ApprovedBy(log[..k], id, p, q, s) {
        ApprovalIsLocal(log, id, p, q, s);
        ApprovalIsLocal(log[..k], id, p, q, s);
        assert log[..k][..s] == log[..s];
      }
    }
  }

  lemma {:induction false} OpenBefore(log: seq<Event>, id: string, k: nat)
    requires k <= |log|
    ensures (exists p: nat :: OpenSince(log, id, p, k)) <==>
              StateOf(log[..k], id).Some? && Undecided(StateOf(log[..k], id).value.status)
  {
    UndecidedIffOpen(log[..k], id);
    forall p: nat ensures OpenSince(log, id, p, k) <==> OpenSince(log[..k], id, p, k) { OpenIsLocal(log, id, p, k); }
  }

  lemma {:induction false} ApprovedBefore(log: seq<Event>, id: string, k: nat)
    requires k <= |log|
    ensures (exists p: nat, q: nat :: ApprovedBy(log, id, p, q, k)) <==> HasStatus(log[..k], id, Status.Approved)
  {
    ApprovedIffHistory(log[..k], id);
    forall p: nat, q: nat ensures ApprovedBy(log, id, p, q, k) <==> ApprovedBy(log[..k], id, p, q, k) {
      ApprovalIsLocal(log, id, p, q, k);
    }
  }

  /** After a terminal event nothing but a new proposal changes the state. */
  lemma {:induction false} StateAfter(log: seq<Event>, id: string, k: nat)
    requires LastWord(log, id, k)
    requires var st := StateOf(log[..k + 1], id); st.Some? && Terminal(st.value.status)
    ensures StateOf(log, id) == StateOf(log[..k + 1], id)
  {
    assert log == log[..k + 1] + log[k + 1..];
    forall e | e in log[k + 1..] && e.Proposal? ensures e.action.id != id {
      var i :| 0 <= i < |log[k + 1..]| && log[k + 1..][i] == e;
      assert log[k + 1 + i] == e;
    }
    TerminalAbsorbs(log[..k + 1], log[k + 1..], id);
  }

  lemma {:induction false} StepTo(log: seq<Event>, id: string, k: nat)
    requires k < |log| && log[k].ActionId() == id
    ensures StateOf(log[..k + 1], id) == Advance(StateOf(log[..k], id), log[k])
  {
    assert log[..k + 1] == log[..k] + [log[k]];
    AppendTouchesOneAction(log[..k], log[k], id);
  }

  /** The event that gave an action its present terminal status. */
  lemma {:induction false} LastChange(log: seq<Event>, id: string) returns (k: nat)
    requires StateOf(log, id).Some? && Terminal(StateOf(log, id).value.status)
    ensures LastWord(log, id, k) && StateOf(log[..k + 1], id) == StateOf(log, id)
    ensures StateOf(log[..k], id) != StateOf(log, id) && !log[k].Proposal?
    ensures StateOf(log[..k], id).Some? && !Terminal(StateOf(log[..k], id).value.status)
  {
    var n := |log| - 1;
    assert log == log[..n] + [log[n]] && log[..n + 1] == log;
    AppendTouchesOneAction(log[..n], log[n], id);
    if StateOf(log[..n], id) == StateOf(log, id) {
      var j := LastChange(log[..n], id);
      assert log[..n][..j] == log[..j] && log[..n][..j + 1] == log[..j + 1];
      k := j;
    } else {
      k := n;
    }
  }

  /** Denied exactly after a denial that came first, which names who denied. */
  lemma {:induction false} DeniedIff(log: seq<Event>, id: string)
    ensures HasStatus(log, id, Status.Denied) <==> exists k: nat :: DeniedAt(log, id, k)
    ensures forall k: nat :: DeniedAt(log, id, k) ==> StateOf(log, id).value.approver == Some(log[k].approver)
  {
    forall k: nat | DeniedAt(log, id, k)
      ensures HasStatus(log, id, Status.Denied) && StateOf(log, id).value.approver == Some(log[k].approver)
    {
      OpenBefore(log, id, k);
      StepTo(log, id, k);
      StateAfter(log, id, k);
    }
    if HasStatus(log, id, Status.Denied) {
      var k := LastChange(log, id);
      StepTo(log, id, k);
      OpenBefore(log, id, k);
      assert DeniedAt(log, id, k);
    }
  }

  /** Expired exactly after an expiry of something undecided or approved. */
  lemma {:induction false} ExpiredIff(log: seq<Event>, id: string)
    ensures HasStatus(log, id, Status.Expired) <==> exists k: nat :: ExpiredAt(log, id, k)
  {
    forall k: nat | ExpiredAt(log, id, k) ensures HasStatus(log, id, Status.Expired) {
      OpenBefore(log, id, k);
      ApprovedBefore(log, id, k);
      StepTo(log, id, k);
      StateAfter(log, id, k);
    }
    if HasStatus(log, id, Status.Expired) {
      var k := LastChange(log, id);
      StepTo(log, id, k);
      OpenBefore(log, id, k);
      ApprovedBefore(log, id, k);
      assert ExpiredAt(log, id, k);
    }
  }

  lemma {:induction false} StartedStep(was: seq<Event>, e: Event, id: string, k: nat)
    requires k <= |was|
    ensures StartedAt(was + [e], id, k, |was| + 1) <==>
      if k == |was| then e.Start? && e.id == id && (exists p: nat, q: nat :: ApprovedBy(was, id, p, q, |was|))
      else StartedAt(was, id, k, |was|) && (e.ActionId() == id ==> !e.Proposal? && !e.Finish?)
  {
    var log := was + [e];
    assert log[|was|] == e && log[..|was|] == was;
    assert forall i {:trigger was[i]} :: 0 <= i < |was| ==> log[i] == was[i];
    forall p: nat, q: nat, n: nat | n <= |was| ensures ApprovedBy(log, id, p, q, n) <==> ApprovedBy(was, id, p, q, n) {
      ApprovalIsLocal(log, id, p, q, n);
      ApprovalIsLocal(was, id, p, q, n);
      assert log[..n] == was[..n];
    }
  }

  ghost predicate SomeStart(log: seq<Event>, id: string) {
    exists k: nat :: StartedAt(log, id, k, |log|)
  }

  lemma {:induction false} SomeStartStep(was: seq<Event>, e: Event, id: string)
    ensures SomeStart(was + [e], id) <==>
      || (e.Start? && e.id == id && HasStatus(was, id, Status.Approved))
      || (SomeStart(was, id) && (e.ActionId() == id ==> !e.Proposal? && !e.Finish?))
  {
    var log := was + [e];
    ApprovedIffHistory(was, id);
    forall k: nat | k <= |was|
      ensures StartedAt(log, id, k, |log|) <==>
        if k == |was| then e.Start? && e.id == id && HasStatus(was, id, Status.Approved)
        else StartedAt(was, id, k, |was|) && (e.ActionId() == id ==> !e.Proposal? && !e.Finish?)
    {
      StartedStep(was, e, id, k);
    }
    if e.Start? && e.id == id && HasStatus(was, id, Status.Approved) { assert StartedAt(log, id, |was|, |log|); }
    if SomeStart(was, id) && (e.ActionId() == id ==> !e.Proposal? && !e.Finish?) {
      var k: nat :| StartedAt(was, id, k, |was|);
      assert StartedAt(log, id, k, |log|);
    }
  }

  /** Executing exactly between a start on an approval in force and its result. */
  lemma {:induction false} ExecutingIff(log: seq<Event>, id: string)
    ensures HasStatus(log, id, Status.Executing) <==> SomeStart(log, id)
  {
    if log == [] {
    } else {
      var n := |log| - 1;
      var was, e := log[..n], log[n];
      assert log == was + [e];
      ExecutingIff(was, id);
      SomeStartStep(was, e, id);
      AppendTouchesOneAction(was, e, id);
    }
  }

  lemma {:induction false} StartedBefore(log: seq<Event>, id: string, k: nat)
    requires k <= |log|
    ensures (exists s: nat :: StartedAt(log, id, s, k)) <==> HasStatus(log[..k], id, Status.Executing)
  {
    ExecutingIff(log[..k], id);
    forall s: nat ensures StartedAt(log, id, s, k) <==> StartedAt(log[..k], id, s, k) { StartIsLocal(log, id, s, k); }
    if SomeStart(log[..k], id) {
      var s: nat :| StartedAt(log[..k], id, s, k);
      assert StartedAt(log, id, s, k);
    }
  }

  ghost predicate Ended(log: seq<Event>, id: string) {
    HasStatus(log, id, Status.Done) || HasStatus(log, id, Status.Failed)
  }

  /** Done or failed exactly after the first result of a start, by what it says, which is kept. */
  lemma {:induction false} FinishedIff(log: seq<Event>, id: string)
    ensures Ended(log, id) <==> exists k: nat :: FinishedAt(log, id, k)
    ensures forall k: nat :: FinishedAt(log, id, k) ==>
      && HasStatus(log, id, if log[k].outcome.ok then Status.Done else Status.Failed)
      && StateOf(log, id).value.outcome == Some(log[k].outcome)
  {
    forall k: nat | FinishedAt(log, id, k)
      ensures HasStatus(log, id, if log[k].outcome.ok then Status.Done else Status.Failed)
      ensures StateOf(log, id).value.outcome == Some(log[k].outcome)
    {
      StartedBefore(log, id, k);
      StepTo(log, id, k);
      StateAfter(log, id, k);
    }
    if Ended(log, id) {
      var k := LastChange(log, id);
      StepTo(log, id, k);
      StartedBefore(log, id, k);
      assert FinishedAt(log, id, k);
    }
  }

  lemma {:induction false} ApprovalWitness(log: seq<Event>, id: string) returns (p: nat, q: nat)
    requires HasStatus(log, id, Status.Approved)
    ensures ApprovedBy(log, id, p, q, |log|) && CarriesProposal(log, id, p)
  {
    ApprovedIffHistory(log, id);
    p, q :| ApprovedBy(log, id, p, q, |log|);
  }

  /** A start consumes its approval: a later one needs a later proposal. */
  lemma {:induction false} StartConsumes(log: seq<Event>, id: string, s: nat, t: nat, p1: nat, q1: nat, p2: nat, q2: nat)
    requires s < t <= |log| && log[s].Start? && log[s].id == id
    requires ApprovedBy(log, id, p1, q1, s) && ApprovedBy(log, id, p2, q2, t)
    ensures s < p2
  {}
}
