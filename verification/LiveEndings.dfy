/** Why a live run ends as it does: polls that are given up, operations that throw, aborts, and a
    recovery that is seen or not. */
module LiveEndings {
  import opened Common
  import opened Journal
  import opened Gate
  import opened LiveRun
  import opened LivePhases
  import opened LiveLedger
  import opened LiveTrace
  import opened LiveInvariant
  import opened LiveHistory

  // ----- polls are limited ----------------------------------------------------------------------------------

  datatype Poll = Running | Ingest | Recovery

  /** How many tries are left at a poll. */
  function Left(poll: Poll, p: Point): Option<nat> {
    match poll
    case Running => if p.AwaitRunning? then Some(p.left) else None
    case Ingest => if p.AwaitIngest? then Some(p.left) else None
    case Recovery => if p.PollRecovery? then Some(p.left) else None
  }

  function Tries(poll: Poll): nat {
    match poll
    case Running => 36
    case Ingest => 36
    case Recovery => 12
  }

  /** How many tries the thread has made among the first n inputs. */
  function Tried(h: Hasher, cfg: Config, inputs: seq<Input>, n: nat, poll: Poll): nat
    requires n <= |inputs|
  {
    if n == 0 then 0
    else
      var left := Left(poll, At(h, cfg, inputs, n - 1).at);
      Tried(h, cfg, inputs, n - 1, poll)
      + if inputs[n - 1].Work? && !inputs[n - 1].a.fault.Early? && left.Some? && left.value > 0 then 1 else 0
  }

  /** Not yet at the poll. */
  predicate NotYet(poll: Poll, p: Point) {
    match poll
    case Running => p.EmitPreflight? || p.CheckPreflight? || p.EmitBooting? || p.CheckRunning?
    case Ingest => p.EmitPreflight? || p.CheckPreflight? || p.EmitBooting? || p.CheckRunning? || p.AwaitRunning?
    case Recovery => !p.PollRecovery? && !EndPoint(p)
  }

  lemma {:induction false} NotYetFlow(poll: Poll, p: Point, c: Cues)
    ensures NotYet(poll, Flow(p, c)) ==> NotYet(poll, p)
  {}

  lemma {:induction false} PollFlow(poll: Poll, p: Point, c: Cues)
    ensures NotYet(poll, Flow(p, c)) ==> NotYet(poll, p)
    ensures var left := Left(poll, Flow(p, c));
            left.Some? ==> (NotYet(poll, p) && left.value == Tries(poll)) || Left(poll, p) == Some(left.value + 1)
  {
    NotYetFlow(poll, p, c);
    match poll {
      case Running =>
      case Ingest =>
      case Recovery =>
    }
  }

  ghost predicate CountOk(poll: Poll, p: Point, tried: nat) {
    && tried <= Tries(poll) && (NotYet(poll, p) ==> tried == 0)
    && (Left(poll, p).Some? ==> Left(poll, p).value <= Tries(poll) && tried == Tries(poll) - Left(poll, p).value)
  }

  lemma {:induction false} PollMoves(h: Hasher, cfg: Config, s: LiveState, i: Input, poll: Poll)
    ensures var p, q := s.at, Respond(h, cfg, s, i).at;
            if i.Work? && !i.a.fault.Early? then
              && (NotYet(poll, q) ==> NotYet(poll, p))
              && (Left(poll, q).Some? ==>
                    (NotYet(poll, p) && Left(poll, q).value == Tries(poll)) || Left(poll, p) == Some(Left(poll, q).value + 1))
            else q == p || EndPoint(q)
  {
    if i.Work? {
      PollFlow(poll, s.at, CuesAt(h, cfg, s, i.a));
      EndsStayEnds(h, cfg, s, i.a);
    }
  }

  /** The thread tries to see the services running 36 times at most, fresh metrics 36 times and the
      recovery 12 times, and counts its tries right. */
  lemma {:induction false} PollsAreCounted(h: Hasher, cfg: Config, inputs: seq<Input>, n: nat, poll: Poll)
    requires n <= |inputs|
    ensures CountOk(poll, At(h, cfg, inputs, n).at, Tried(h, cfg, inputs, n, poll))
  {
    if n == 0 {
      assert At(h, cfg, inputs, 0) == Initial();
    } else {
      PollsAreCounted(h, cfg, inputs, n - 1, poll);
      OneMore(h, cfg, inputs, n - 1);
      PollMoves(h, cfg, At(h, cfg, inputs, n - 1), inputs[n - 1], poll);
    }
  }

  // ----- why a run fails, is cancelled or ends --------------------------------------------------------------

  /** What makes a run fail: an operation that throws, a blocking preflight check, a poll given up, no
      action to propose, or an executor that throws. */
  predicate Breaks(p: Point, a: Answer) {
    || !a.fault.NoFault?
    || (p.CheckPreflight? && !a.ok)
    || p == AwaitRunning(0) || p == AwaitIngest(0)
    || (p.Propose? && a.proposal.None?)
    || (p.RunGate? && a.call.attempt.Raised?)
  }

  lemma {:induction false} IntoFailure(h: Hasher, cfg: Config, s: LiveState, a: Answer)
    requires SampleOk(s.at, s.data) && s.at != Handler(false) && Operate(h, cfg, s, a).at == Handler(false)
    ensures Breaks(s.at, a)
  {
    if a.fault.NoFault? { FlowFails(s.at, CuesAt(h, cfg, s, a)); }
  }

  lemma {:induction false} FlowFails(p: Point, c: Cues)
    requires Flow(p, c) == Handler(false)
    ensures || (p.CheckPreflight? && !c.ok) || p == AwaitRunning(0) || p == AwaitIngest(0)
            || (p.Propose? && !c.ok) || (p.ReadDecision? && !c.decided) || (p.RunGate? && c.raised)
  {}

  /** A run fails for a reason. */
  lemma {:induction false} FailureHasACause(h: Hasher, cfg: Config, inputs: seq<Input>, n: nat) returns (k: nat)
    requires n <= |inputs| && At(h, cfg, inputs, n).at == Handler(false)
    ensures k < n && Works(inputs, k) && Breaks(At(h, cfg, inputs, k).at, inputs[k].a)
  {
    k := LastEntry(h, cfg, inputs, n, (s: LiveState) => s.at == Handler(false));
    Always(h, cfg, inputs[..k]);
    IntoFailure(h, cfg, At(h, cfg, inputs, k), inputs[k].a);
  }

  /** Where the thread checks for an abort. */
  predicate ChecksForAbort(s: LiveState) {
    match s.at
    case AwaitRunning(left) => left > 0
    case AwaitIngest(left) => left > 0
    case WaitBaseline => true
    case WaitSoak => true
    case CheckAbort => true
    case PollRecovery(left) => left > 0 && !s.data.recovered
    case _ => false
  }

  /** At a check, an operation that does not throw leads to cancellation exactly if an abort was asked for. */
  lemma {:induction false} AbortsAreHeeded(h: Hasher, cfg: Config, inputs: seq<Input>, n: nat)
    requires Works(inputs, n) && inputs[n].a.fault.NoFault? && ChecksForAbort(At(h, cfg, inputs, n))
    ensures At(h, cfg, inputs, n + 1).at == Handler(true) <==> AbortRequested in At(h, cfg, inputs, n).data.trace
  {
    OneMore(h, cfg, inputs, n);
    Always(h, cfg, inputs[..n]);
    OperateThrough(h, cfg, At(h, cfg, inputs, n), inputs[n].a);
  }

  lemma {:induction false} FlowCancels(p: Point, c: Cues)
    ensures Flow(p, c) == Handler(true) ==> c.aborted
  {}

  /** And nothing else cancels a run. */
  lemma {:induction false} CancelledMeansAborted(h: Hasher, cfg: Config, inputs: seq<Input>, n: nat)
    requires n <= |inputs| && At(h, cfg, inputs, n).at == Handler(true)
    ensures AbortRequested in At(h, cfg, inputs, n).data.trace
  {
    var k := LastEntry(h, cfg, inputs, n, (s: LiveState) => s.at == Handler(true));
    var s := At(h, cfg, inputs, k);
    Always(h, cfg, inputs[..k]);
    IntoCancel(h, cfg, s, inputs[k]);
    TraceGrows(h, cfg, inputs, k, n);
  }

  lemma {:induction false} IntoCancel(h: Hasher, cfg: Config, s: LiveState, i: Input)
    requires s.at != Handler(true) && Respond(h, cfg, s, i).at == Handler(true)
    ensures i.Work? && s.data.aborted
  {
    if i.Work? { FlowCancels(s.at, CuesAt(h, cfg, s, i.a)); }
  }

  /** The last phase tells why the run ended: cancelled only when an abort was asked for, failed only
      for one of the reasons, and done only at the end of the ordinary course. */
  lemma {:induction false} TheEndTellsWhy(h: Hasher, cfg: Config, inputs: seq<Input>, n: nat) returns (k: nat)
    requires n <= |inputs| && (At(h, cfg, inputs, n).at.Finally? || At(h, cfg, inputs, n).at.Finished?)
    ensures k < n && At(h, cfg, inputs, n).phases != []
    ensures var end := At(h, cfg, inputs, n);
            match end.phases[|end.phases| - 1]
            case Cancelled => AbortRequested in end.data.trace
            case Failed => Works(inputs, k) && Breaks(At(h, cfg, inputs, k).at, inputs[k].a)
            case Done => At(h, cfg, inputs, k).at.EmitDone?
            case _ => false
  {
    var end := At(h, cfg, inputs, n);
    k := LastEntry(h, cfg, inputs, n, (s: LiveState) => (s.at.Finally? || s.at.Finished?) && s.phases == end.phases);
    var s := At(h, cfg, inputs, k);
    EndsWith(h, cfg, s, inputs[k]);
    if s.at == Handler(true) {
      CancelledMeansAborted(h, cfg, inputs, k);
      TraceGrows(h, cfg, inputs, k, n);
    } else if s.at == Handler(false) {
      k := FailureHasACause(h, cfg, inputs, k);
    }
  }

  lemma {:induction false} LastWords(p: Point)
    ensures p.Finally? || p.Finished? ==> Emits(p) == []
    ensures p.Handler? || p.EmitDone? ==>
      Emits(p) == [if p == Handler(true) then Cancelled else if p == Handler(false) then Phase.Failed else Phase.Done]
  {}

  lemma {:induction false} EndsWith(h: Hasher, cfg: Config, s: LiveState, i: Input)
    requires var t := Respond(h, cfg, s, i); t.at.Finally? || t.at.Finished?
    ensures EndPoint(s.at)
    ensures s.at.Finally? || s.at.Finished? ==> Respond(h, cfg, s, i).phases == s.phases
    ensures s.at.Handler? || s.at.EmitDone? ==>
      Respond(h, cfg, s, i).phases
        == s.phases + [if s.at == Handler(true) then Cancelled else if s.at == Handler(false) then Phase.Failed else Phase.Done]
  {
    if i.Work? {
      FlowEnds(s.at, CuesAt(h, cfg, s, i.a));
      LastWords(s.at);
      assert s.phases + [] == s.phases;
    }
  }

  lemma {:induction false} IntoDone(p: Point, c: Cues)
    ensures Flow(p, c).EmitDone? ==>
      p.ReadWhetherDecided? || p.JournalVerdict? || (p.PollRecovery? && (p.left == 0 || c.recovered))
  {}

  lemma {:induction false} TriedGrows(h: Hasher, cfg: Config, inputs: seq<Input>, k: nat, n: nat, poll: Poll)
    requires k <= n <= |inputs|
    ensures Tried(h, cfg, inputs, k, poll) <= Tried(h, cfg, inputs, n, poll)
  {
    if k < n { TriedGrows(h, cfg, inputs, k, n - 1, poll); }
  }

  /** The operation that led to the end of a run that was recovering. */
  lemma {:induction false} LastPoll(h: Hasher, cfg: Config, s: LiveState, i: Input)
    requires PhasesOk(s.phases, s.at) && !s.at.EmitDone?
    requires var t := Respond(h, cfg, s, i); t.at.EmitDone? && Recovering in t.phases
    ensures s.at.PollRecovery? && (s.at.left == 0 || s.data.recovered)
    ensures Respond(h, cfg, s, i).data.recovered == s.data.recovered
  {
    MovedOn(h, cfg, s, i);
    OperateThrough(h, cfg, s, i.a);
    IntoDone(s.at, CuesAt(h, cfg, s, i.a));
    assert s.phases + [] == s.phases;
    RecoveringIsTenth(s.phases, s.at);
  }

  lemma {:induction false} RecoveringIsTenth(phases: seq<Phase>, p: Point)
    requires PhasesOk(phases, p) && !p.Finally? && !p.Finished? && Recovering in phases
    ensures |phases| >= 10
  {
    var k :| 0 <= k < |phases| && phases[k] == Recovering;
    assert Rank(phases[k]) == k;
  }

  /** After an execution the run is done only once recovery was seen, or twelve tries did not see it. */
  lemma {:induction false} RecoveryIsWatched(h: Hasher, cfg: Config, inputs: seq<Input>, n: nat)
    requires n <= |inputs| && At(h, cfg, inputs, n).at.EmitDone? && Recovering in At(h, cfg, inputs, n).phases
    ensures At(h, cfg, inputs, n).data.recovered || Tried(h, cfg, inputs, n, Recovery) == 12
  {
    var end := At(h, cfg, inputs, n);
    var k := LastEntry(h, cfg, inputs, n,
      (s: LiveState) => s.at.EmitDone? && s.phases == end.phases && s.data.recovered == end.data.recovered);
    var s := At(h, cfg, inputs, k);
    Always(h, cfg, inputs[..k]);
    if s.at.EmitDone? {
      NothingStays(h, cfg, s, inputs[k]);
    } else {
      LastPoll(h, cfg, s, inputs[k]);
      PollsAreCounted(h, cfg, inputs, k, Recovery);
      PollsAreCounted(h, cfg, inputs, n, Recovery);
      TriedGrows(h, cfg, inputs, k, n, Recovery);
    }
  }

  /** Only clicks and aborts leave the thread at the end of a run, and they change neither. */
  lemma {:induction false} NothingStays(h: Hasher, cfg: Config, s: LiveState, i: Input)
    requires s.at.EmitDone? && Respond(h, cfg, s, i).at.EmitDone?
    ensures Respond(h, cfg, s, i).phases == s.phases && Respond(h, cfg, s, i).data.recovered == s.data.recovered
  {}

  /** Healthy again: below the scenario's mark, or below a third of what it was. */
  predicate Healthy(cfg: Config, before: Option<real>, value: Option<real>) {
    && value.Some?
    && match cfg.recoveredBelow
       case Some(mark) => value.value < mark
       case None => before.Some? && 3.0 * value.value < before.value
  }

  /** The readings the executor reported, by the journal. */
  ghost predicate Reported(d: Data, before: Option<real>, after: Option<real>) {
    var st := StateOf(d.world.log, Action(d).id);
    if st.Some? && st.value.outcome.Some? then before == st.value.outcome.value.before && after == st.value.outcome.value.after
    else before.None? && after.None?
  }

  /** What the journal reports says that the run recovered. */
  ghost predicate ReportsHealthy(cfg: Config, d: Data) {
    exists before, after :: Reported(d, before, after) && Healthy(cfg, before, after)
  }

  lemma {:induction false} RecoversAtGate(h: Hasher, cfg: Config, d: Data, now: real, call: ExecutorCall)
    requires ThroughGate(h, cfg, d, now, call).recovered
    ensures ReportsHealthy(cfg, ThroughGate(h, cfg, d, now, call))
  {
    var d' := ThroughGate(h, cfg, d, now, call);
    var st := StateOf(d'.world.log, Action(d').id);
    var outcome := if st.Some? then st.value.outcome else None;
    var before := if outcome.Some? then outcome.value.before else None;
    var after := if outcome.Some? then outcome.value.after else None;
    assert Reported(d', before, after) && Healthy(cfg, before, after);
  }

  lemma {:induction false} RecoversAtPoll(h: Hasher, cfg: Config, p: Point, d: Data, a: Answer)
    requires !p.RunGate? && !d.recovered && Perform(h, cfg, p, d, a).recovered
    ensures p.PollRecovery? && Healthy(cfg, d.before, a.health)
  {}

  /** The operation at s saw the recovery: by the executor's report, or by its own reading. */
  ghost predicate SeesRecovery(cfg: Config, s: LiveState, i: Input, t: LiveState) {
    && i.Work?
    && ((s.at.PollRecovery? && Healthy(cfg, s.data.before, i.a.health)) || (s.at.RunGate? && ReportsHealthy(cfg, t.data)))
  }

  lemma {:induction false} RecoversAt(h: Hasher, cfg: Config, s: LiveState, i: Input)
    requires !s.data.recovered && Respond(h, cfg, s, i).data.recovered
    ensures SeesRecovery(cfg, s, i, Respond(h, cfg, s, i))
  {
    if i.Work? {
      OperateThrough(h, cfg, s, i.a);
      if s.at.RunGate? {
        RunGateLeads(h, cfg, s.at, s.data, i.a);
        RecoversAtGate(h, cfg, s.data, i.a.now, i.a.call);
      } else {
        RecoversAtPoll(h, cfg, s.at, s.data, i.a);
      }
    }
  }

  /** Recovery is only reported when it was seen. */
  lemma {:induction false} RecoveryIsSeen(h: Hasher, cfg: Config, inputs: seq<Input>, n: nat) returns (k: nat)
    requires n <= |inputs| && At(h, cfg, inputs, n).data.recovered
    ensures k < n && SeesRecovery(cfg, At(h, cfg, inputs, k), inputs[k], At(h, cfg, inputs, k + 1))
  {
    k := LastEntry(h, cfg, inputs, n, Recovered);
    OneMore(h, cfg, inputs, k);
    RecoversAt(h, cfg, At(h, cfg, inputs, k), inputs[k]);
  }

  predicate Recovered(s: LiveState) {
    s.data.recovered
  }

  lemma {:induction false} ReportIsUnique(cfg: Config, d: Data, before: Option<real>, after: Option<real>)
    requires Reported(d, before, after)
    ensures ReportsHealthy(cfg, d) <==> Healthy(cfg, before, after)
  {}

  lemma {:induction false} GateRecoversIff(h: Hasher, cfg: Config, d: Data, now: real, call: ExecutorCall)
    ensures ThroughGate(h, cfg, d, now, call).recovered <==> ReportsHealthy(cfg, ThroughGate(h, cfg, d, now, call))
  {
    var d' := ThroughGate(h, cfg, d, now, call);
    var st := StateOf(d'.world.log, Action(d').id);
    var outcome := if st.Some? then st.value.outcome else None;
    var before := if outcome.Some? then outcome.value.before else None;
    var after := if outcome.Some? then outcome.value.after else None;
    ReportIsUnique(cfg, d', before, after);
  }

  lemma {:induction false} PollRecoversIff(h: Hasher, cfg: Config, p: Point, d: Data, a: Answer)
    requires p.PollRecovery? && p.left > 0 && !d.recovered && !d.aborted
    ensures Perform(h, cfg, p, d, a).recovered <==> Healthy(cfg, d.before, a.health)
  {}

  /** A recovery that is there to be seen is seen: by the executor's report, or by the next poll. */
  lemma {:induction false} RecoveryIsNoticed(h: Hasher, cfg: Config, inputs: seq<Input>, n: nat)
    requires Works(inputs, n) && inputs[n].a.fault.NoFault?
    ensures var s, t := At(h, cfg, inputs, n), At(h, cfg, inputs, n + 1);
            && (s.at.RunGate? ==> (t.data.recovered <==> ReportsHealthy(cfg, t.data)))
            && (s.at.PollRecovery? && s.at.left > 0 && !s.data.recovered && !s.data.aborted ==>
                  (t.data.recovered <==> Healthy(cfg, s.data.before, inputs[n].a.health)))
  {
    var s, a := At(h, cfg, inputs, n), inputs[n].a;
    OneMore(h, cfg, inputs, n);
    OperateThrough(h, cfg, s, a);
    if s.at.RunGate? {
      RunGateLeads(h, cfg, s.at, s.data, a);
      GateRecoversIff(h, cfg, s.data, a.now, a.call);
    } else if s.at.PollRecovery? && s.at.left > 0 && !s.data.recovered && !s.data.aborted {
      PollRecoversIff(h, cfg, s.at, s.data, a);
    }
  }

  /** An operation that throws leads to the handler: early on without any effect, midway with its phase
      shown but not entered, and late with its effect and its phase. */
  lemma {:induction false} ThrowsAreCaught(h: Hasher, cfg: Config, inputs: seq<Input>, n: nat)
    requires Works(inputs, n) && !inputs[n].a.fault.NoFault? && !EndPoint(At(h, cfg, inputs, n).at)
    ensures var s, t := At(h, cfg, inputs, n), At(h, cfg, inputs, n + 1);
            && t.at.Handler?
            && (inputs[n].a.fault.Early? ==> t.data == s.data && t.phases == s.phases && t.shown == s.shown)
            && (inputs[n].a.fault.Midway? ==>
                  t.data == s.data && t.phases == s.phases
                  && t.shown == if Emits(s.at) == [] then s.shown else Some(Emits(s.at)[0]))
            && (inputs[n].a.fault.Late? ==>
                  t.data == Perform(h, cfg, s.at, s.data, inputs[n].a) && t.phases == s.phases + Emits(s.at))
  {
    OneMore(h, cfg, inputs, n);
  }

  predicate Watching(p: Point) {
    p.EmitRecovering? || p.PollRecovery?
  }

  lemma {:induction false} IntoWatching(p: Point, c: Cues)
    ensures Watching(Flow(p, c)) ==> p.RunGate? || Watching(p)
  {}

  lemma {:induction false} FrameBefore(h: Hasher, cfg: Config, p: Point, d: Data, a: Answer)
    requires !p.RunGate?
    ensures Perform(h, cfg, p, d, a).before == d.before
  {}

  ghost predicate BeforeOk(d: Data) {
    exists after :: Reported(d, d.before, after)
  }

  lemma {:induction false} SameReport(d: Data, d': Data)
    requires d'.world == d.world && d'.action == d.action && d'.before == d.before
    ensures BeforeOk(d) ==> BeforeOk(d')
  {
    if BeforeOk(d) {
      var after :| Reported(d, d.before, after);
      assert Reported(d', d'.before, after);
    }
  }

  lemma {:induction false} WatchingWork(h: Hasher, cfg: Config, p: Point, d: Data, a: Answer)
    requires p.RunGate? || BeforeOk(d)
    requires p.RunGate? || Watching(p)
    ensures BeforeOk(Perform(h, cfg, p, d, a))
  {
    if p.RunGate? {
      RunGateLeads(h, cfg, p, d, a);
      GateReports(h, cfg, d, a.now, a.call);
    } else {
      FrameWorld(h, cfg, p, d, a);
      FrameAction(h, cfg, p, d, a);
      FrameBefore(h, cfg, p, d, a);
      SameReport(d, Perform(h, cfg, p, d, a));
    }
  }

  lemma {:induction false} WatchingStep(h: Hasher, cfg: Config, s: LiveState, i: Input)
    requires Watching(s.at) ==> BeforeOk(s.data)
    ensures var t := Respond(h, cfg, s, i); Watching(t.at) ==> BeforeOk(t.data)
  {
    var t := Respond(h, cfg, s, i);
    if Watching(t.at) {
      if i.Work? {
        EntryOrStay(h, cfg, s, i);
        WatchingWork(h, cfg, s.at, s.data, i.a);
      } else {
        SameReport(s.data, t.data);
      }
    }
  }

  lemma {:induction false} EntryOrStay(h: Hasher, cfg: Config, s: LiveState, i: Input)
    requires i.Work? && Watching(Respond(h, cfg, s, i).at)
    ensures (s.at.RunGate? || Watching(s.at)) && Respond(h, cfg, s, i).data == Perform(h, cfg, s.at, s.data, i.a)
  {
    IntoWatching(s.at, CuesAt(h, cfg, s, i.a));
  }

  lemma {:induction false} GateReports(h: Hasher, cfg: Config, d: Data, now: real, call: ExecutorCall)
    ensures BeforeOk(ThroughGate(h, cfg, d, now, call))
  {
    var d' := ThroughGate(h, cfg, d, now, call);
    var st := StateOf(d'.world.log, Action(d').id);
    var after := if st.Some? && st.value.outcome.Some? then st.value.outcome.value.after else None;
    assert Reported(d', d'.before, after);
  }

  /** While recovery is watched for, it is measured against what the executor reported from before. */
  lemma {:induction false} WatchedAgainstTheReport(h: Hasher, cfg: Config, inputs: seq<Input>, n: nat)
    requires n <= |inputs| && Watching(At(h, cfg, inputs, n).at)
    ensures exists after :: Reported(At(h, cfg, inputs, n).data, At(h, cfg, inputs, n).data.before, after)
  {
    WatchedSoFar(h, cfg, inputs, n);
  }

  lemma {:induction false} WatchedSoFar(h: Hasher, cfg: Config, inputs: seq<Input>, n: nat)
    requires n <= |inputs|
    ensures Watching(At(h, cfg, inputs, n).at) ==> BeforeOk(At(h, cfg, inputs, n).data)
  {
    if n == 0 {
      assert At(h, cfg, inputs, 0) == Initial();
    } else {
      WatchedSoFar(h, cfg, inputs, n - 1);
      OneMore(h, cfg, inputs, n - 1);
      WatchingStep(h, cfg, At(h, cfg, inputs, n - 1), inputs[n - 1]);
    }
  }

  // ----- what is proposed -----------------------------------------------------------------------------------

  /** Whatever action a run works on is the one the catalog elected, hashed as it is, and may be executed
      until the time allowed after the clock reading of its proposal. */
  lemma {:induction false} ProposalIsAsElected(h: Hasher, cfg: Config, inputs: seq<Input>, n: nat) returns (k: nat)
    requires n <= |inputs| && At(h, cfg, inputs, n).data.action.Some?
    ensures k < n && Works(inputs, k) && At(h, cfg, inputs, k).at.Propose? && inputs[k].a.proposal.Some?
    ensures var d := At(h, cfg, inputs, n).data;
            && d.action.value.id == inputs[k].a.proposal.value.0
            && d.action.value.content == inputs[k].a.proposal.value.1
            && d.action.value.paramsHash == h(d.action.value.content)
            && d.expiresAt == inputs[k].a.now + cfg.ttlS
  {
    var d := At(h, cfg, inputs, n).data;
    k := LastEntry(h, cfg, inputs, n, (s: LiveState) => s.data.action == d.action && s.data.expiresAt == d.expiresAt);
    var s := At(h, cfg, inputs, k);
    if inputs[k].Work? && !s.at.Propose? {
      FrameAction(h, cfg, s.at, s.data, inputs[k].a);
      FrameDeadline(h, cfg, s.at, s.data, inputs[k].a);
    }
  }
}
