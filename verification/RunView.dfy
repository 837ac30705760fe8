/** The viewer's reducer (frontend/src/livelab/state.ts): one frame at a time, dropping
    frames whose sequence number is not new. */
module RunView {
  import opened Common
  import opened Frames

  datatype PhaseEntry = PhaseEntry(phase: string, atMs: int, detail: Option<string>)

  datatype LabView = LabView(services: seq<Json>, ingestAgeS: Option<real>)

  datatype View = View(
    lastSeq: nat,
    phase: Option<string>,
    phases: seq<PhaseEntry>,
    target: Option<string>,
    scenario: Option<Json>,
    timings: Option<Json>,
    window: Option<Json>,
    lab: Option<LabView>,
    agents: map<string, seq<Json>>,
    agentOrder: seq<string>,
    report: Option<Json>,
    action: Option<Json>,
    actionHistory: seq<Json>,
    recovery: Option<Json>,
    error: Option<string>,
    done: bool)

  function Initial(): View {
    View(0, None, [], None, None, None, None, None, map[], [], None, None, [], None, None, false)
  }

  /** The switch over the frame's event. */
  function Absorb(v: View, p: Payload): View {
    match p
    case PhaseData(phase, atMs, detail, target, scenario, timings, window) =>
      v.(phase := Some(phase),
         phases := v.phases + [PhaseEntry(phase, atMs, detail)],
         target := if target.Some? && target.value != "" then target else v.target,
         scenario := if scenario.Some? then scenario else v.scenario,
         timings := if timings.Some? then timings else v.timings,
         window := if window.Some? then window else v.window)
    case LabData(services, age) => v.(lab := Some(LabView(OrElse(services, []), age)))
    case AgentData(agentId, record) =>
      var id := OrElse(agentId, "manager");
      v.(agents := v.agents[id := OrElse(Get(v.agents, id), []) + [record]],
         agentOrder := if id in v.agentOrder then v.agentOrder else v.agentOrder + [id])
    case ReportData(report) => v.(report := Some(report))
    case ActionData(action) => v.(action := Some(action), actionHistory := v.actionHistory + [action])
    case RecoveryData(recovery) => v.(recovery := Some(recovery))
    case ErrorData(message) => v.(error := Some(OrElse(message, "unknown error")))
    case DoneData => v.(done := true)
    case ResetData => v
    case OtherData(_) => v
  }

  function Reduce(v: View, f: Frame): View {
    if f.payload.ResetData? then Initial()
    else if f.seqNo != 0 && f.seqNo <= v.lastSeq then v
    else Absorb(v.(lastSeq := Max(v.lastSeq, f.seqNo)), f.payload)
  }

  function ReduceAll(v: View, frames: seq<Frame>): View {
    if frames == [] then v
    else Reduce(ReduceAll(v, frames[..|frames| - 1]), frames[|frames| - 1])
  }

  /** What a journal means, with no deduplication: every frame absorbed once, in order. */
  function Meaning(v: View, frames: seq<Frame>): View {
    if frames == [] then v
    else
      var w := Meaning(v, frames[..|frames| - 1]);
      var f := frames[|frames| - 1];
      Absorb(w.(lastSeq := Max(w.lastSeq, f.seqNo)), f.payload)
  }

  // ----- what a view shows --------------------------------------------------------------

  function Phases(frames: seq<Frame>): seq<PhaseEntry> {
    if frames == [] then []
    else
      var p := frames[|frames| - 1].payload;
      Phases(frames[..|frames| - 1])
        + if p.PhaseData? then [PhaseEntry(p.phase, p.phaseAtMs, p.detail)] else []
  }

  function Actions(frames: seq<Frame>): seq<Json> {
    if frames == [] then []
    else
      var p := frames[|frames| - 1].payload;
      Actions(frames[..|frames| - 1]) + if p.ActionData? then [p.action] else []
  }

  /** The records of one agent; an unnamed one is the manager. */
  function Records(frames: seq<Frame>, id: string): seq<Json> {
    if frames == [] then []
    else
      var p := frames[|frames| - 1].payload;
      Records(frames[..|frames| - 1], id)
        + if p.AgentData? && OrElse(p.agentId, "manager") == id then [p.record] else []
  }

  /** The payload of the last frame of a kind. */
  function Last(frames: seq<Frame>, kind: Payload -> bool): Option<Payload> {
    if frames == [] then None
    else if kind(frames[|frames| - 1].payload) then Some(frames[|frames| - 1].payload)
    else Last(frames[..|frames| - 1], kind)
  }

  predicate IsDone(p: Payload) {
    p.DoneData?
  }

  predicate IsReport(p: Payload) {
    p.ReportData?
  }

  predicate IsRecovery(p: Payload) {
    p.RecoveryData?
  }

  /** All phases and actions in order, and the current ones. */
  ghost predicate Listed(v: View, frames: seq<Frame>) {
    && v.phases == Phases(frames) && v.actionHistory == Actions(frames)
    && (v.phase == if v.phases == [] then None else Some(v.phases[|v.phases| - 1].phase))
    && (v.action == if v.actionHistory == [] then None else Some(v.actionHistory[|v.actionHistory| - 1]))
  }

  /** The latest report and recovery, and whether the run is done. */
  ghost predicate LatestShown(v: View, frames: seq<Frame>) {
    && Last(frames, IsReport) == (if v.report.Some? then Some(ReportData(v.report.value)) else None)
    && Last(frames, IsRecovery) == (if v.recovery.Some? then Some(RecoveryData(v.recovery.value)) else None)
    && (v.done <==> Last(frames, IsDone).Some?)
  }

  lemma {:induction false} MeaningLists(frames: seq<Frame>)
    ensures Listed(Meaning(Initial(), frames), frames)
  {
    if frames == [] {
    } else {
      var init, f := frames[..|frames| - 1], frames[|frames| - 1];
      MeaningLists(init);
      var v := Meaning(Initial(), init);
      AbsorbLists(v.(lastSeq := Max(v.lastSeq, f.seqNo)), f.payload, init, frames);
    }
  }

  lemma {:induction false} AbsorbLists(v: View, p: Payload, init: seq<Frame>, frames: seq<Frame>)
    requires frames != [] && init == frames[..|frames| - 1] && p == frames[|frames| - 1].payload
    requires Listed(v, init)
    ensures Listed(Absorb(v, p), frames)
  {
    var w := Absorb(v, p);
    if p.PhaseData? {
      assert w.phases == v.phases + [PhaseEntry(p.phase, p.phaseAtMs, p.detail)];
    } else if p.ActionData? {
      assert w.actionHistory == v.actionHistory + [p.action];
    } else {
      assert w.phases == v.phases && w.actionHistory == v.actionHistory;
    }
  }

  lemma {:induction false} MeaningShowsLatest(frames: seq<Frame>)
    ensures LatestShown(Meaning(Initial(), frames), frames)
  {
    if frames == [] {
    } else {
      var init, f := frames[..|frames| - 1], frames[|frames| - 1];
      MeaningShowsLatest(init);
      var v := Meaning(Initial(), init);
      AbsorbShowsLatest(v.(lastSeq := Max(v.lastSeq, f.seqNo)), f.payload, init, frames);
    }
  }

  lemma {:induction false} AbsorbShowsLatest(v: View, p: Payload, init: seq<Frame>, frames: seq<Frame>)
    requires frames != [] && init == frames[..|frames| - 1] && p == frames[|frames| - 1].payload
    requires LatestShown(v, init)
    ensures LatestShown(Absorb(v, p), frames)
  {}

  /** The records of an agent so far, and its one place in the order of appearance. */
  ghost predicate AgentShown(v: View, frames: seq<Frame>, id: string) {
    && OrElse(Get(v.agents, id), []) == Records(frames, id)
    && (id in v.agentOrder <==> Records(frames, id) != [])
    && multiset(v.agentOrder)[id] <= 1
  }

  /** Every agent's records, in order, under its name; agents are listed once each. */
  lemma {:induction false} MeaningKeepsAgents(frames: seq<Frame>, id: string)
    ensures AgentShown(Meaning(Initial(), frames), frames, id)
  {
    if frames == [] {
    } else {
      var init, f := frames[..|frames| - 1], frames[|frames| - 1];
      MeaningKeepsAgents(init, id);
      var v := Meaning(Initial(), init);
      AbsorbKeepsAgents(v.(lastSeq := Max(v.lastSeq, f.seqNo)), f.payload, init, frames, id);
    }
  }

  lemma {:induction false} AbsorbKeepsAgents(v: View, p: Payload, init: seq<Frame>, frames: seq<Frame>, id: string)
    requires frames != [] && init == frames[..|frames| - 1] && p == frames[|frames| - 1].payload
    requires AgentShown(v, init, id)
    ensures AgentShown(Absorb(v, p), frames, id)
  {
    var w := Absorb(v, p);
    if p.AgentData? {
      var name := OrElse(p.agentId, "manager");
      var was := OrElse(Get(v.agents, name), []);
      assert w.agents == v.agents[name := was + [p.record]];
      assert Get(w.agents, id) == if id == name then Some(was + [p.record]) else Get(v.agents, id);
    } else {
      assert w.agents == v.agents && w.agentOrder == v.agentOrder;
      assert Records(frames, id) == Records(init, id);
    }
  }

  /** Agents are listed in the order in which they first appear. */
  ghost predicate ByAppearance(order: seq<string>, frames: seq<Frame>) {
    forall i, j :: 0 <= i < j < |order| ==> AppearsFirst(frames, order[i], order[j])
  }

  /** At some time a had a record and b did not. */
  ghost predicate AppearsFirst(frames: seq<Frame>, a: string, b: string) {
    exists k :: 0 <= k <= |frames| && Records(frames[..k], a) != [] && Records(frames[..k], b) == []
  }

  lemma {:induction false} AgentsComeInOrder(frames: seq<Frame>)
    ensures ByAppearance(Meaning(Initial(), frames).agentOrder, frames)
  {
    if frames == [] {
    } else {
      var init, f := frames[..|frames| - 1], frames[|frames| - 1];
      AgentsComeInOrder(init);
      var v := Meaning(Initial(), init);
      var w := v.(lastSeq := Max(v.lastSeq, f.seqNo));
      forall id ensures AgentShown(w, init, id) { MeaningKeepsAgents(init, id); }
      AbsorbKeepsOrder(w, f.payload, init, frames);
    }
  }

  lemma {:induction false} AbsorbKeepsOrder(v: View, p: Payload, init: seq<Frame>, frames: seq<Frame>)
    requires frames != [] && init == frames[..|frames| - 1] && p == frames[|frames| - 1].payload
    requires ByAppearance(v.agentOrder, init) && forall id :: AgentShown(v, init, id)
    ensures ByAppearance(Absorb(v, p).agentOrder, frames)
  {
    var order := Absorb(v, p).agentOrder;
    assert v.agentOrder <= order;
    forall i, j | 0 <= i < j < |order| ensures AppearsFirst(frames, order[i], order[j]) {
      if j < |v.agentOrder| {
        assert AppearsFirst(init, v.agentOrder[i], v.agentOrder[j]);
        StillFirst(frames, order[i], order[j]);
      } else {
        assert AgentShown(v, init, order[i]) && AgentShown(v, init, order[j]);
        assert order[i] in v.agentOrder;
        assert frames[..|init|] == init;
      }
    }
  }

  lemma {:induction false} StillFirst(frames: seq<Frame>, a: string, b: string)
    requires frames != [] && AppearsFirst(frames[..|frames| - 1], a, b)
    ensures AppearsFirst(frames, a, b)
  {
    var init := frames[..|frames| - 1];
    var k :| 0 <= k <= |init| && Records(init[..k], a) != [] && Records(init[..k], b) == [];
    assert init[..k] == frames[..k];
  }

  predicate IsLab(p: Payload) {
    p.LabData?
  }

  predicate IsError(p: Payload) {
    p.ErrorData?
  }

  predicate NamesTarget(p: Payload) {
    p.PhaseData? && p.target.Some? && p.target.value != ""
  }

  predicate GivesScenario(p: Payload) {
    p.PhaseData? && p.scenario.Some?
  }

  predicate GivesTimings(p: Payload) {
    p.PhaseData? && p.timings.Some?
  }

  predicate GivesWindow(p: Payload) {
    p.PhaseData? && p.window.Some?
  }

  /** The lab's services and ingest age as last reported, and the last error's message. */
  ghost predicate ConditionShown(v: View, frames: seq<Frame>) {
    && (match Last(frames, IsLab)
        case Some(LabData(services, age)) => v.lab == Some(LabView(if services.Some? then services.value else [], age))
        case _ => v.lab == None && Last(frames, IsLab) == None)
    && (match Last(frames, IsError)
        case Some(ErrorData(message)) => v.error == Some(if message.Some? then message.value else "unknown error")
        case _ => v.error == None && Last(frames, IsError) == None)
  }

  /** The setting of the run: each part as the last phase that gave it gave it. */
  ghost predicate SettingShown(v: View, frames: seq<Frame>) {
    && (match Last(frames, NamesTarget)
        case Some(PhaseData(_, _, _, target, _, _, _)) => v.target == target
        case _ => v.target == None && Last(frames, NamesTarget) == None)
    && (match Last(frames, GivesScenario)
        case Some(PhaseData(_, _, _, _, scenario, _, _)) => v.scenario == scenario
        case _ => v.scenario == None && Last(frames, GivesScenario) == None)
    && (match Last(frames, GivesTimings)
        case Some(PhaseData(_, _, _, _, _, timings, _)) => v.timings == timings
        case _ => v.timings == None && Last(frames, GivesTimings) == None)
    && (match Last(frames, GivesWindow)
        case Some(PhaseData(_, _, _, _, _, _, window)) => v.window == window
        case _ => v.window == None && Last(frames, GivesWindow) == None)
  }

  lemma {:induction false} MeaningShowsTheRun(frames: seq<Frame>)
    ensures ConditionShown(Meaning(Initial(), frames), frames) && SettingShown(Meaning(Initial(), frames), frames)
  {
    if frames == [] {
    } else {
      var init, f := frames[..|frames| - 1], frames[|frames| - 1];
      MeaningShowsTheRun(init);
      var v := Meaning(Initial(), init);
      AbsorbShowsCondition(v.(lastSeq := Max(v.lastSeq, f.seqNo)), f.payload, init, frames);
      AbsorbShowsSetting(v.(lastSeq := Max(v.lastSeq, f.seqNo)), f.payload, init, frames);
    }
  }

  lemma {:induction false} AbsorbShowsCondition(v: View, p: Payload, init: seq<Frame>, frames: seq<Frame>)
    requires frames != [] && init == frames[..|frames| - 1] && p == frames[|frames| - 1].payload
    requires ConditionShown(v, init)
    ensures ConditionShown(Absorb(v, p), frames)
  {}

  lemma {:induction false} AbsorbShowsSetting(v: View, p: Payload, init: seq<Frame>, frames: seq<Frame>)
    requires frames != [] && init == frames[..|frames| - 1] && p == frames[|frames| - 1].payload
    requires SettingShown(v, init)
    ensures SettingShown(Absorb(v, p), frames)
  {}

  // ----- exactly once from at least once -----------------------------------------------

  predicate HasReset(frames: seq<Frame>) {
    frames != [] && (frames[|frames| - 1].payload.ResetData? || HasReset(frames[..|frames| - 1]))
  }

  /** The frames after the last reset. */
  function SinceReset(frames: seq<Frame>): seq<Frame> {
    if frames == [] || frames[|frames| - 1].payload.ResetData? then []
    else SinceReset(frames[..|frames| - 1]) + [frames[|frames| - 1]]
  }

  /** The view those frames meet. */
  function Base(v: View, frames: seq<Frame>): View {
    if HasReset(frames) then Initial() else v
  }

  /** The highest number seen, by a viewer who had seen all up to `seen`. */
  function Highest(seen: nat, frames: seq<Frame>): nat {
    if frames == [] then seen else Max(Highest(seen, frames[..|frames| - 1]), frames[|frames| - 1].seqNo)
  }

  /** The frames without a number, and those that raise the highest number seen. */
  function Kept(seen: nat, frames: seq<Frame>): seq<Frame> {
    if frames == [] then []
    else
      var init, f := frames[..|frames| - 1], frames[|frames| - 1];
      Kept(seen, init) + if f.seqNo == 0 || f.seqNo > Highest(seen, init) then [f] else []
  }

  predicate Seen(seen: nat, frames: seq<Frame>, n: nat) {
    n <= seen || exists f :: f in frames && f.seqNo == n
  }

  /** The frames without a number, and the first delivery of each number not seen before. */
  function FirstDeliveries(seen: nat, frames: seq<Frame>): seq<Frame> {
    if frames == [] then []
    else
      var init, f := frames[..|frames| - 1], frames[|frames| - 1];
      FirstDeliveries(seen, init) + if f.seqNo == 0 || !Seen(seen, init, f.seqNo) then [f] else []
  }

  /** The numbers ascend, whatever frames without a number lie between. */
  predicate Ascending(frames: seq<Frame>) {
    forall i, j :: 0 <= i < j < |frames| && frames[i].seqNo > 0 && frames[j].seqNo > 0 ==>
      frames[i].seqNo < frames[j].seqNo
  }

  lemma {:induction false} AbsorbKeepsSeq(v: View, p: Payload)
    ensures Absorb(v, p).lastSeq == v.lastSeq
  {}

  /** Whatever view it starts from and whatever is delivered, the reducer's view is the meaning of
      exactly the frames since the last reset that bear no number or raise the highest seen. */
  lemma {:induction false} ReduceAllAbsorbsKept(v: View, frames: seq<Frame>)
    ensures var base, since := Base(v, frames), SinceReset(frames);
            && ReduceAll(v, frames) == Meaning(base, Kept(base.lastSeq, since))
            && ReduceAll(v, frames).lastSeq == Highest(base.lastSeq, since)
  {
    if frames == [] {
    } else if frames[|frames| - 1].payload.ResetData? {
      assert HasReset(frames) && SinceReset(frames) == [];
    } else {
      var init, f := frames[..|frames| - 1], frames[|frames| - 1];
      ReduceAllAbsorbsKept(v, init);
      KeptGrows(Base(v, init).lastSeq, SinceReset(init), f);
      var w := ReduceAll(v, init);
      AbsorbKeepsSeq(w.(lastSeq := Max(w.lastSeq, f.seqNo)), f.payload);
      MeaningGrows(Base(v, init), Kept(Base(v, init).lastSeq, SinceReset(init)), f);
    }
  }

  lemma {:induction false} KeptGrows(seen: nat, since: seq<Frame>, f: Frame)
    ensures Kept(seen, since + [f])
         == Kept(seen, since) + if f.seqNo == 0 || f.seqNo > Highest(seen, since) then [f] else []
    ensures Highest(seen, since + [f]) == Max(Highest(seen, since), f.seqNo)
  {
    assert (since + [f])[..|since|] == since;
  }

  lemma {:induction false} MeaningGrows(v: View, kept: seq<Frame>, f: Frame)
    ensures var w := Meaning(v, kept);
            Meaning(v, kept + [f]) == Absorb(w.(lastSeq := Max(w.lastSeq, f.seqNo)), f.payload)
    ensures Meaning(v, kept + []) == Meaning(v, kept)
  {
    assert (kept + [f])[..|kept|] == kept;
    assert kept + [] == kept;
  }

  lemma {:induction false} HighestIsReached(seen: nat, frames: seq<Frame>)
    ensures Highest(seen, frames) >= seen
    ensures forall i :: 0 <= i < |frames| ==> frames[i].seqNo <= Highest(seen, frames)
  {
    if frames == [] {
    } else {
      HighestIsReached(seen, frames[..|frames| - 1]);
    }
  }

  /** Every number newly seen has its first delivery among the first deliveries. */
  lemma {:induction false} FirstIsDelivered(seen: nat, frames: seq<Frame>, n: nat) returns (k: nat)
    requires n > seen && Seen(seen, frames, n)
    ensures k < |FirstDeliveries(seen, frames)| && FirstDeliveries(seen, frames)[k].seqNo == n
  {
    var init, f := frames[..|frames| - 1], frames[|frames| - 1];
    assert frames == init + [f];
    if Seen(seen, init, n) {
      k := FirstIsDelivered(seen, init, n);
    } else {
      k := |FirstDeliveries(seen, init)|;
    }
  }

  lemma {:induction false} HighestIsSeen(seen: nat, frames: seq<Frame>)
    ensures Seen(seen, frames, Highest(seen, frames))
  {
    if frames == [] {
    } else {
      var init, f := frames[..|frames| - 1], frames[|frames| - 1];
      assert frames == init + [f];
      HighestIsSeen(seen, init);
      assert f in frames;
    }
  }

  lemma {:induction false} FirstsAreBounded(seen: nat, frames: seq<Frame>)
    ensures forall i :: 0 <= i < |FirstDeliveries(seen, frames)| ==>
      FirstDeliveries(seen, frames)[i].seqNo <= Highest(seen, frames)
  {
    if frames == [] {
    } else {
      FirstsAreBounded(seen, frames[..|frames| - 1]);
    }
  }

  lemma {:induction false} AscendingAppend(xs: seq<Frame>, f: Frame)
    ensures Ascending(xs + [f]) <==>
      Ascending(xs) && (f.seqNo > 0 ==> forall i :: 0 <= i < |xs| ==> xs[i].seqNo < f.seqNo)
  {
    var ys := xs + [f];
    assert ys[|xs|] == f && forall i {:trigger xs[i]} :: 0 <= i < |xs| ==> ys[i] == xs[i];
  }

  lemma {:induction false} KeptAreAmongFirsts(seen: nat, frames: seq<Frame>)
    ensures |Kept(seen, frames)| <= |FirstDeliveries(seen, frames)|
  {
    if frames == [] {
    } else {
      var init := frames[..|frames| - 1];
      KeptAreAmongFirsts(seen, init);
      HighestIsReached(seen, init);
    }
  }

  /** Nothing first delivered is dropped exactly when the first deliveries' numbers ascend. */
  lemma {:induction false} NothingDroppedIffAscending(seen: nat, frames: seq<Frame>)
    ensures Kept(seen, frames) == FirstDeliveries(seen, frames) <==> Ascending(FirstDeliveries(seen, frames))
  {
    if frames == [] {
    } else {
      var init, f := frames[..|frames| - 1], frames[|frames| - 1];
      var firsts, kept := FirstDeliveries(seen, init), Kept(seen, init);
      NothingDroppedIffAscending(seen, init);
      HighestIsReached(seen, init);
      KeptAreAmongFirsts(seen, init);
      if f.seqNo == 0 || f.seqNo > Highest(seen, init) {
        BothKeep(seen, init, f);
        LastsAgree(kept, firsts, f);
      } else if !Seen(seen, init, f.seqNo) {
        LateFirstIsLost(seen, init, f);
      } else {
        assert FirstDeliveries(seen, frames) == firsts && Kept(seen, frames) == kept;
      }
    }
  }

  lemma {:induction false} LastsAgree(xs: seq<Frame>, ys: seq<Frame>, f: Frame)
    ensures xs + [f] == ys + [f] <==> xs == ys
  {
    if xs + [f] == ys + [f] {
      assert xs == (xs + [f])[..|xs|] && ys == (ys + [f])[..|ys|];
    }
  }

  lemma {:induction false} BothKeep(seen: nat, init: seq<Frame>, f: Frame)
    requires f.seqNo == 0 || f.seqNo > Highest(seen, init)
    ensures f.seqNo == 0 || !Seen(seen, init, f.seqNo)
    ensures Ascending(FirstDeliveries(seen, init) + [f]) <==> Ascending(FirstDeliveries(seen, init))
  {
    HighestIsReached(seen, init);
    FirstsAreBounded(seen, init);
    AscendingAppend(FirstDeliveries(seen, init), f);
  }

  /** A number first delivered after a higher one breaks the order, and its frame is dropped. */
  lemma {:induction false} LateFirstIsLost(seen: nat, init: seq<Frame>, f: Frame)
    requires 0 < f.seqNo <= Highest(seen, init) && !Seen(seen, init, f.seqNo)
    ensures !Ascending(FirstDeliveries(seen, init) + [f])
  {
    HighestIsSeen(seen, init);
    var k := FirstIsDelivered(seen, init, Highest(seen, init));
    AscendingAppend(FirstDeliveries(seen, init), f);
  }

  /** Exactly once from at least once: if the first deliveries since the last reset ascend, then
      duplicates and overlapping replays leave the view that one in-order, duplicate-free delivery
      gives, from whatever view it starts. */
  lemma {:induction false} DuplicatesAreHarmless(v: View, frames: seq<Frame>)
    requires Ascending(FirstDeliveries(Base(v, frames).lastSeq, SinceReset(frames)))
    ensures var base := Base(v, frames);
            ReduceAll(v, frames) == Meaning(base, FirstDeliveries(base.lastSeq, SinceReset(frames)))
  {
    ReduceAllAbsorbsKept(v, frames);
    NothingDroppedIffAscending(Base(v, frames).lastSeq, SinceReset(frames));
  }
}
