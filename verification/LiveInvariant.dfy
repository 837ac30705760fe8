/** What holds after any inputs of a live run. */
module LiveInvariant {
  import opened Common
  import opened Journal
  import opened Gate
  import opened LiveRun
  import opened LivePhases
  import opened LiveLedger
  import opened LiveTrace

  // ----- every reachable state -----

  ghost predicate DataOk(h: Hasher, at: Point, d: Data) {
    LedgerOk(h, at, d) && SampleOk(at, d) && AbortOk(at, d) && SweptOk(at, d.trace) && RunsOk(d)
  }

  predicate EndedDone(s: LiveState) {
    (s.at.Finally? || s.at.Finished?) && s.phases != [] && s.phases[|s.phases| - 1] == Phase.Done
  }

  ghost predicate Inv(h: Hasher, s: LiveState) {
    && PhasesOk(s.phases, s.at) && ShownOk(s)
    && DataOk(h, s.at, s.data)
    && (EndedDone(s) ==> Concluded(h, s.data))
    && (s.data.world.runs != [] ==> |s.phases| > Rank(Phase.Executing))
  }

  lemma {:induction false} DataOkAtHandler(h: Hasher, p: Point, d: Data)
    requires DataOk(h, p, d)
    ensures DataOk(h, Handler(false), d)
  {
    ThrownLedger(h, d);
    SameAbortOk(p, d, Handler(false), d);
  }

  lemma {:induction false} PerformData(h: Hasher, cfg: Config, p: Point, d: Data, a: Answer)
    requires DataOk(h, p, d)
    ensures var d' := Perform(h, cfg, p, d, a);
            var c := CuesOf(p, d, a, |d'.world.runs| > |d.world.runs|);
            DataOk(h, Flow(p, c), d')
  {
    var d' := Perform(h, cfg, p, d, a);
    var ran := |d'.world.runs| > |d.world.runs|;
    var c := CuesOf(p, d, a, ran);
    PerformLedger(h, cfg, p, d, a);
    PerformDoes(h, cfg, p, d, a);
    StepSample(p, d, d', ran, c, Flow(p, c));
    StepAbort(p, d, d', ran, c, Flow(p, c));
    StepSwept(p, d, d', ran, c, Flow(p, c));
    StepRuns(p, d, d', ran);
  }

  /** What a click or an abort request may change. */
  ghost predicate Controls(d: Data, d': Data, e: Effect) {
    && (e.Acknowledged? || e.AbortRequested?)
    && d' == d.(ready := true, trace := d.trace + [e], decision := d'.decision, aborted := d'.aborted)
    && d'.decision == (if e.Acknowledged? then Some(e.d) else d.decision)
    && d'.aborted == (d.aborted || e.AbortRequested?)
  }

  lemma {:induction false} ControlSwept(p: Point, trace: seq<Effect>, e: Effect)
    requires SweptOk(p, trace) && !e.Injected?
    ensures SweptOk(p, trace + [e])
  {
    var more := trace + [e];
    if p.Finished? {
      forall i | 0 <= i < |more| && more[i].Injected? ensures exists j :: i < j < |more| && more[j].Swept? {
        var j :| i < j < |trace| && trace[j].Swept?;
        assert more[j].Swept?;
      }
    }
  }

  lemma {:induction false} ControlTrace(p: Point, d: Data, d': Data, e: Effect)
    requires SampleOk(p, d) && AbortOk(p, d) && RunsOk(d) && Controls(d, d', e)
    ensures SampleOk(p, d') && AbortOk(p, d') && RunsOk(d')
  {
    AppendSampleOk(p, d, p, d', e);
    AppendAbortOk(p, d, p, d', e);
    AppendClicks(d.trace, e);
  }

  lemma {:induction false} ControlData(h: Hasher, p: Point, d: Data, d': Data, e: Effect)
    requires DataOk(h, p, d) && Controls(d, d', e)
    ensures DataOk(h, p, d') && (Concluded(h, d) ==> Concluded(h, d'))
  {
    SameLedger(h, d, d');
    ControlTrace(p, d, d', e);
    ControlSwept(p, d.trace, e);
  }

  lemma {:induction false} OperateData(h: Hasher, cfg: Config, s: LiveState, a: Answer)
    requires DataOk(h, s.at, s.data)
    ensures var t := Operate(h, cfg, s, a); DataOk(h, t.at, t.data)
  {
    if Interrupted(s.at, a.fault) {
      DataOkAtHandler(h, s.at, s.data);
    } else {
      PerformData(h, cfg, s.at, s.data, a);
      var d := Perform(h, cfg, s.at, s.data, a);
      var c := CuesOf(s.at, s.data, a, |d.world.runs| > |s.data.world.runs|);
      DataOkAtHandler(h, Flow(s.at, c), d);
    }
  }

  lemma {:induction false} DoneComesFrom(h: Hasher, cfg: Config, s: LiveState, a: Answer)
    requires EndedDone(Operate(h, cfg, s, a))
    ensures EndPoint(s.at) && (s.at.EmitDone? || EndedDone(s))
  {
    var d := Perform(h, cfg, s.at, s.data, a);
    FlowEnds(s.at, CuesOf(s.at, s.data, a, |d.world.runs| > |s.data.world.runs|));
  }

  lemma {:induction false} OperateDone(h: Hasher, cfg: Config, s: LiveState, a: Answer)
    requires LedgerOk(h, s.at, s.data) && (EndedDone(s) ==> Concluded(h, s.data))
    requires EndedDone(Operate(h, cfg, s, a))
    ensures Concluded(h, Operate(h, cfg, s, a).data)
  {
    DoneComesFrom(h, cfg, s, a);
    EndingKeepsTheLedger(h, cfg, s.at, s.data, a);
  }

  lemma {:induction false} OperateInv(h: Hasher, cfg: Config, s: LiveState, a: Answer)
    requires Inv(h, s)
    ensures Inv(h, Operate(h, cfg, s, a))
  {
    OperatePhases(h, cfg, s, a);
    OperateShown(h, cfg, s, a);
    OperateData(h, cfg, s, a);
    if EndedDone(Operate(h, cfg, s, a)) { OperateDone(h, cfg, s, a); }
    OperateRunPhase(h, cfg, s, a);
  }

  lemma {:induction false} ControlInv(h: Hasher, s: LiveState, t: LiveState, e: Effect)
    requires Inv(h, s) && t.at == s.at && t.shown == s.shown && t.phases == s.phases && Controls(s.data, t.data, e)
    ensures Inv(h, t)
  {
    ControlData(h, s.at, s.data, t.data, e);
  }

  lemma {:induction false} NextInv(h: Hasher, cfg: Config, s: LiveState, i: Input)
    requires Inv(h, s)
    ensures Inv(h, Respond(h, cfg, s, i))
  {
    match i {
      case Work(a) => OperateInv(h, cfg, s, a);
      case Abort => ControlInv(h, s, RequestAbort(s), AbortRequested);
      case Click(d) => if AwaitingDecision(s) { ControlInv(h, s, Decide(s, d).0, Acknowledged(d)); }
    }
  }

  lemma {:induction false} StepsInv(h: Hasher, cfg: Config, s: LiveState, inputs: seq<Input>)
    requires Inv(h, s)
    ensures Inv(h, Steps(h, cfg, s, inputs))
    decreases |inputs|
  {
    if inputs == [] {
    } else {
      NextInv(h, cfg, s, inputs[0]);
      StepsInv(h, cfg, Respond(h, cfg, s, inputs[0]), inputs[1..]);
    }
  }

  lemma {:induction false} Always(h: Hasher, cfg: Config, inputs: seq<Input>)
    ensures Inv(h, After(h, cfg, inputs))
  {
    assert Inv(h, Initial());
    StepsInv(h, cfg, Initial(), inputs);
  }

  // ----- what holds of every run -----

  /** Before it ends, a run has entered a prefix of the documented phases; when it ends, a
      prefix followed by exactly one of done, failed and cancelled. */
  lemma {:induction false} PhasesFollowTheOrder(h: Hasher, cfg: Config, inputs: seq<Input>)
    ensures var s := After(h, cfg, inputs);
            var n := |s.phases|;
            if s.at.Finally? || s.at.Finished? then
              n > 0 && s.phases[..n - 1] <= ORDER && s.phases[n - 1] in {Phase.Done, Phase.Failed, Cancelled}
            else s.phases <= ORDER
  {
    Always(h, cfg, inputs);
    var s := After(h, cfg, inputs);
    var n := if s.at.Finally? || s.at.Finished? then |s.phases| - 1 else |s.phases|;
    RankIsPlace(s.phases, n);
  }

  /** Every injected fault is swept before the run is finished. */
  lemma {:induction false} EveryFaultIsSwept(h: Hasher, cfg: Config, inputs: seq<Input>, i: nat)
    requires var s := After(h, cfg, inputs); s.at.Finished? && i < |s.data.trace| && s.data.trace[i].Injected?
    ensures var trace := After(h, cfg, inputs).data.trace; exists j :: i < j < |trace| && trace[j].Swept?
  {
    Always(h, cfg, inputs);
  }

  /** The executor is called at most once, only past an abort check that saw no abort, only on an
      approval the thread read, and never when the journal records a denial or an expiry. */
  lemma {:induction false} ExecutorRunsAtMostOnce(h: Hasher, cfg: Config, inputs: seq<Input>)
    ensures var d := After(h, cfg, inputs).data;
            && Runs(d.trace) == |d.world.runs| <= 1
            && (d.world.runs != [] ==>
                  && d.sample.Some? && d.sample.value.verb == Approve
                  && AbortChecked in d.trace
                  && NoRefusal(d.world.log))
  {
    Always(h, cfg, inputs);
    var d := After(h, cfg, inputs).data;
    LedgerRuns(h, d);
    if d.world.runs != [] { RunsMember(d.trace); }
  }

  /** A run that ends in "done" leaves its action in a terminal status, and which one follows
      from the last click acknowledged before the thread read the decision: none, expired;
      a denial, denied; an approval, done or failed if the gate was reached in time, else expired. */
  lemma {:induction false} DoneIsDecided(h: Hasher, cfg: Config, inputs: seq<Input>)
    requires EndedDone(After(h, cfg, inputs))
    ensures var d := After(h, cfg, inputs).data;
            var id := Action(d).id;
            && (d.sample.None? ==> HasStatus(d.world.log, id, Status.Expired) && d.world.runs == [])
            && (d.sample.Some? && d.sample.value.verb == Deny ==>
                  HasStatus(d.world.log, id, Status.Denied) && d.world.runs == [])
            && (d.sample.Some? && d.sample.value.verb == Approve ==>
                  if d.world.runs == [] then HasStatus(d.world.log, id, Status.Expired)
                  else HasStatus(d.world.log, id, Status.Done) || HasStatus(d.world.log, id, Status.Failed))
            && (d.sample.Some? <==> exists k :: SampledAt(d.trace, k))
            && forall k :: SampledAt(d.trace, k) ==> d.sample == LastClick(d.trace[..k])
  {
    Always(h, cfg, inputs);
    var d := After(h, cfg, inputs).data;
    var id := Action(d).id;
    if Lapsed(h, d) {
      LapsedOutcome(h, d);
    } else if Refused(h, d) {
      RefusedOutcome(h, d);
    } else {
      var now, call :| Gated(h, d, now, call) && (d.world.runs == [] || call.attempt.Returned?);
      GatedStatus(h, d, now, call);
    }
  }
}
