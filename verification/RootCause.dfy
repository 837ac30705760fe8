/** The root-cause pick of run_rca (sentinel/oss/rca.py): model verdicts may refute, the
    anomaly overlay decides. */
module RootCause {
  import opened Common
  import opened Sorting
  import opened RankKeys
  import opened Ranking

  datatype Hypothesis = Hypothesis(candidate: string, signature: Family, injected: bool)

  /** A worker's verdict as a JSON object: any field may be missing. */
  datatype Verdict = Verdict(
    candidate: Option<string>,
    supported: Option<bool>,
    signature: Option<Family>,
    observed: map<Family, bool>,
    rootCause: Option<string>)

  const INJECT_TOP: nat := 3

  /** The family that stepped hardest, the first in dictionary order on ties, if any stepped. */
  function DominantFamily(effects: Option<map<Family, real>>): Option<Family> {
    if effects.None? || effects.value == map[] then None
    else
      var best := BestFamily(effects.value, [Resource, Latency, Error]);
      if best.Some? && effects.value[best.value] >= Z_MIN then best else None
  }

  function BestFamily(effects: map<Family, real>, families: seq<Family>): (best: Option<Family>)
    ensures best.Some? ==> best.value in effects
    ensures forall f :: f in families && f in effects ==> best.Some? && effects[f] <= effects[best.value]
  {
    if families == [] then None
    else
      var n := |families| - 1;
      var best := BestFamily(effects, families[..n]);
      var f := families[n];
      assert families == families[..n] + [f];
      if f in effects && (best.None? || effects[f] > effects[best.value]) then Some(f) else best
  }

  lemma {:induction false} DominantIffAnomalous(effects: Effects, s: string)
    ensures DominantFamily(Get(effects, s)).Some? <==> Anomalous(effects, s)
    ensures DominantFamily(Get(effects, s)).Some? ==> Z(effects, s, DominantFamily(Get(effects, s)).value) == ZTotal(effects, s)
  {
    ZTotalBounds(effects, s);
    if s in effects && effects[s] != map[] {
      var best := BestFamily(effects[s], [Resource, Latency, Error]);
      forall f | f in effects[s] ensures best.Some? && effects[s][f] <= effects[s][best.value] {
        assert f in [Resource, Latency, Error] by { match f { case Resource => case Latency => case Error => } }
      }
      var g :| g in effects[s];
    }
  }

  // ----- hypotheses the planner missed ----------------------------------------------------------

  ghost predicate Investigated(hypotheses: seq<Hypothesis>, s: string) {
    exists i :: 0 <= i < |hypotheses| && hypotheses[i].candidate == s
  }

  /** An addition names an anomalous service nobody planned for, signed by its strongest family. */
  ghost predicate Addition(h: Hypothesis, planned: seq<Hypothesis>, anomalous: set<string>, effects: Effects) {
    && h.injected && h.candidate in anomalous && !Investigated(planned, h.candidate)
    && Z(effects, h.candidate, h.signature) == ZTotal(effects, h.candidate)
  }

  ghost predicate Extends(hypotheses: seq<Hypothesis>, planned: seq<Hypothesis>, anomalous: set<string>, effects: Effects) {
    && planned <= hypotheses
    && forall i :: |planned| <= i < |hypotheses| ==> Addition(hypotheses[i], planned, anomalous, effects)
  }

  ghost predicate TopInvestigated(hypotheses: seq<Hypothesis>, ranked: seq<string>, anomalous: set<string>, n: int) {
    forall j :: 0 <= j < |ranked| && j < n && ranked[j] in anomalous ==> Investigated(hypotheses, ranked[j])
  }

  /** For the top three ranked services, add a hypothesis for each anomalous one not planned. */
  method Inject(ranked: seq<string>, anomalous: set<string>, effects: Effects, planned: seq<Hypothesis>)
    returns (hypotheses: seq<Hypothesis>)
    requires forall s :: s in anomalous <==> s in ranked && Anomalous(effects, s)
    ensures Extends(hypotheses, planned, anomalous, effects) && |hypotheses| <= |planned| + 3
    ensures TopInvestigated(hypotheses, ranked, anomalous, 3)
  {
    var candidates := set h | h in planned :: h.candidate;
    hypotheses := planned;
    var top := Min(|ranked|, INJECT_TOP);
    for i := 0 to top
      invariant Extends(hypotheses, planned, anomalous, effects) && |hypotheses| <= |planned| + i
      invariant TopInvestigated(hypotheses, ranked, anomalous, i)
    {
      var svc := ranked[i];
      var dom := DominantFamily(Get(effects, svc));
      DominantIffAnomalous(effects, svc);
      assert svc in candidates <==> Investigated(planned, svc);
      if dom.Some? && svc in anomalous && svc !in candidates {
        var h := Hypothesis(svc, dom.value, true);
        InjectOne(hypotheses, h, ranked, anomalous, i);
        hypotheses := hypotheses + [h];
      } else if svc in candidates {
        StillInvestigated(planned, hypotheses, svc);
      }
    }
  }

  lemma {:induction false} StillInvestigated(before: seq<Hypothesis>, after: seq<Hypothesis>, s: string)
    requires before <= after && Investigated(before, s)
    ensures Investigated(after, s)
  {
    var i :| 0 <= i < |before| && before[i].candidate == s;
    assert after[i] == before[i];
  }

  lemma {:induction false} InjectOne(
      hypotheses: seq<Hypothesis>, h: Hypothesis, ranked: seq<string>, anomalous: set<string>, n: nat)
    requires n < |ranked| && h.candidate == ranked[n] && TopInvestigated(hypotheses, ranked, anomalous, n)
    ensures TopInvestigated(hypotheses + [h], ranked, anomalous, n + 1)
  {
    var more := hypotheses + [h];
    assert more[|hypotheses|].candidate == ranked[n];
    forall j | 0 <= j < n && ranked[j] in anomalous ensures Investigated(more, ranked[j]) {
      StillInvestigated(hypotheses, more, ranked[j]);
    }
  }

  // ----- what happens to a worker's verdict -------------------------------------------------------

  /** A verdict is pinned to its own candidate; for an anomalous candidate the overlay's evidence
      replaces the model's judgement. */
  function Reconcile(effects: Effects, candidate: string, v: Verdict): Verdict {
    var dom := DominantFamily(Get(effects, candidate));
    var pinned := v.(candidate := Some(candidate));
    var judged :=
      if dom.None? then pinned
      else pinned.(observed := map f | f in effects[candidate] :: effects[candidate][f] >= Z_MIN,
                   supported := Some(true), signature := dom);
    if judged.supported == Some(true) then judged.(rootCause := Some(candidate)) else judged
  }

  /** A service is refuted by an explicit "not supported" about a service that did not step. */
  function Refuted(verdicts: seq<Verdict>, anomalous: set<string>): set<string> {
    set v | v in verdicts && v.supported == Some(false) && v.candidate.Some? && v.candidate.value !in anomalous
      :: v.candidate.value
  }

  function Unrefuted(ranked: seq<string>, refuted: set<string>): seq<string> {
    if ranked == [] then []
    else (if ranked[0] in refuted then [] else [ranked[0]]) + Unrefuted(ranked[1..], refuted)
  }

  /** The surviving ranking: unrefuted services in rank order, or everything if none is left. */
  function Survivors(ranked: seq<string>, refuted: set<string>): seq<string> {
    if Unrefuted(ranked, refuted) == [] then ranked else Unrefuted(ranked, refuted)
  }

  function Pick(ranked: seq<string>, verdicts: seq<Verdict>, anomalous: set<string>): Option<string> {
    var survivors := Survivors(ranked, Refuted(verdicts, anomalous));
    if survivors == [] then None else Some(survivors[0])
  }

  // ----- properties of the pick ---------------------------------------------------------------------

  /** xs is ys with some elements left out. */
  predicate Subsequence(xs: seq<string>, ys: seq<string>)
    decreases |ys|
  {
    if xs == [] then true
    else ys != [] && ((xs[0] == ys[0] && Subsequence(xs[1..], ys[1..])) || Subsequence(xs, ys[1..]))
  }

  lemma {:induction false} SubsequenceSelf(xs: seq<string>)
    ensures Subsequence(xs, xs)
  {
    if xs == [] {
    } else {
      SubsequenceSelf(xs[1..]);
    }
  }

  lemma {:induction false} UnrefutedIsSubsequence(ranked: seq<string>, refuted: set<string>)
    ensures Subsequence(Unrefuted(ranked, refuted), ranked)
    ensures forall s :: s in Unrefuted(ranked, refuted) <==> s in ranked && s !in refuted
  {
    if ranked == [] {
    } else {
      UnrefutedIsSubsequence(ranked[1..], refuted);
      assert ranked == [ranked[0]] + ranked[1..];
      if ranked[0] !in refuted {
        assert Unrefuted(ranked, refuted)[1..] == Unrefuted(ranked[1..], refuted);
      } else {
        assert Unrefuted(ranked, refuted) == Unrefuted(ranked[1..], refuted);
      }
    }
  }

  /** No verdict is ever able to drop an anomalous service or leave nothing to pick from. */
  lemma {:induction false} SurvivorsKeepTheAnomalous(ranked: seq<string>, verdicts: seq<Verdict>, anomalous: set<string>)
    ensures var survivors := Survivors(ranked, Refuted(verdicts, anomalous));
            && Subsequence(survivors, ranked)
            && (ranked != [] ==> survivors != [])
            && forall s :: s in ranked && s in anomalous ==> s in survivors
  {
    UnrefutedIsSubsequence(ranked, Refuted(verdicts, anomalous));
    SubsequenceSelf(ranked);
  }

  /** The pick is never below the first anomalous service. */
  lemma {:induction false} PickIsAtOrAboveFirstAnomalous(
      ranked: seq<string>, verdicts: seq<Verdict>, anomalous: set<string>, k: nat)
    requires k < |ranked| && ranked[k] in anomalous
    ensures exists i :: 0 <= i <= k && Pick(ranked, verdicts, anomalous) == Some(ranked[i])
  {
    var refuted := Refuted(verdicts, anomalous);
    FirstUnrefuted(ranked, refuted, k);
  }

  lemma {:induction false} FirstUnrefuted(ranked: seq<string>, refuted: set<string>, k: nat)
    requires k < |ranked| && ranked[k] !in refuted
    ensures Unrefuted(ranked, refuted) != []
    ensures exists i :: 0 <= i <= k && Unrefuted(ranked, refuted)[0] == ranked[i]
  {
    if ranked[0] in refuted {
      FirstUnrefuted(ranked[1..], refuted, k - 1);
      var i :| 0 <= i <= k - 1 && Unrefuted(ranked[1..], refuted)[0] == ranked[1..][i];
      assert ranked[1..][i] == ranked[i + 1];
    } else {
      assert Unrefuted(ranked, refuted)[0] == ranked[0];
    }
  }

  /** Some worker said "not supported", explicitly, of a service that did not step. */
  ghost predicate Dropped(verdicts: seq<Verdict>, anomalous: set<string>, s: string) {
    s !in anomalous && exists i :: 0 <= i < |verdicts| && verdicts[i].supported == Some(false) && verdicts[i].candidate == Some(s)
  }

  lemma {:induction false} RefutedAreDropped(verdicts: seq<Verdict>, anomalous: set<string>, s: string)
    ensures s in Refuted(verdicts, anomalous) <==> Dropped(verdicts, anomalous, s)
  {
    if Dropped(verdicts, anomalous, s) {
      var i :| 0 <= i < |verdicts| && verdicts[i].supported == Some(false) && verdicts[i].candidate == Some(s);
      assert verdicts[i] in verdicts;
    }
  }

  /** The first service from position k on that is not refuted. */
  lemma {:induction false} UnrefutedStartsAt(ranked: seq<string>, refuted: set<string>, k: nat)
    requires k < |ranked| && ranked[k] !in refuted && forall j :: 0 <= j < k ==> ranked[j] in refuted
    ensures Unrefuted(ranked, refuted) != [] && Unrefuted(ranked, refuted)[0] == ranked[k]
  {
    if k > 0 { UnrefutedStartsAt(ranked[1..], refuted, k - 1); }
  }

  lemma {:induction false} AllRefuted(ranked: seq<string>, refuted: set<string>)
    requires forall j :: 0 <= j < |ranked| ==> ranked[j] in refuted
    ensures Unrefuted(ranked, refuted) == []
  {
    if ranked != [] { AllRefuted(ranked[1..], refuted); }
  }

  lemma {:induction false} FirstKept(ranked: seq<string>, refuted: set<string>) returns (k: nat)
    ensures k <= |ranked| && (forall j :: 0 <= j < k ==> ranked[j] in refuted)
    ensures k < |ranked| ==> ranked[k] !in refuted
  {
    if ranked == [] || ranked[0] !in refuted {
      k := 0;
    } else {
      k := FirstKept(ranked[1..], refuted);
      k := k + 1;
      forall j | 0 <= j < k ensures ranked[j] in refuted { assert j == 0 || ranked[j] == ranked[1..][j - 1]; }
    }
  }

  /** The pick is the first ranked service that is not dropped, or the first of all when every one
      is dropped. */
  lemma {:induction false} PickIff(ranked: seq<string>, verdicts: seq<Verdict>, anomalous: set<string>, k: nat)
    requires Distinct(ranked) && k < |ranked|
    ensures Pick(ranked, verdicts, anomalous) == Some(ranked[k]) <==>
      if forall j :: 0 <= j < |ranked| ==> Dropped(verdicts, anomalous, ranked[j]) then k == 0
      else !Dropped(verdicts, anomalous, ranked[k]) && forall j :: 0 <= j < k ==> Dropped(verdicts, anomalous, ranked[j])
  {
    var refuted := Refuted(verdicts, anomalous);
    forall s ensures s in refuted <==> Dropped(verdicts, anomalous, s) { RefutedAreDropped(verdicts, anomalous, s); }
    var first := FirstKept(ranked, refuted);
    if first == |ranked| {
      AllRefuted(ranked, refuted);
    } else {
      UnrefutedStartsAt(ranked, refuted, first);
    }
  }

  /** Two sets of verdicts that agree on the explicit refusals agree on the pick: support, and
      verdicts that do not say, never matter. */
  lemma {:induction false} OnlyRefusalsCount(ranked: seq<string>, v: seq<Verdict>, w: seq<Verdict>, anomalous: set<string>)
    requires forall x: Verdict :: x.supported == Some(false) ==> (x in v <==> x in w)
    ensures Pick(ranked, v, anomalous) == Pick(ranked, w, anomalous)
  {
    assert Refuted(v, anomalous) == Refuted(w, anomalous);
  }

  /** The verdicts have no say in the pick exactly when the top-ranked service is anomalous, or
      there is no choice. */
  lemma {:induction false} VerdictsCannotMoveThePickIff(ranked: seq<string>, anomalous: set<string>)
    requires Distinct(ranked)
    ensures (forall verdicts :: Pick(ranked, verdicts, anomalous) == if ranked == [] then None else Some(ranked[0]))
       <==> |ranked| <= 1 || ranked[0] in anomalous
  {
    if |ranked| <= 1 || ranked[0] in anomalous {
      forall verdicts ensures Pick(ranked, verdicts, anomalous) == if ranked == [] then None else Some(ranked[0]) {
        if ranked != [] && ranked[0] in anomalous {
          PickIsAtOrAboveFirstAnomalous(ranked, verdicts, anomalous, 0);
        } else if ranked != [] {
          SurvivorsKeepTheAnomalous(ranked, verdicts, anomalous);
          assert ranked[1..] == [];
        }
      }
    } else {
      var no := Verdict(Some(ranked[0]), Some(false), None, map[], None);
      var refuted := Refuted([no], anomalous);
      assert no in [no];
      assert refuted == {ranked[0]};
      assert Unrefuted(ranked, refuted) == Unrefuted(ranked[1..], refuted);
      assert ranked[1..][0] == ranked[1] != ranked[0];
      assert Pick(ranked, [no], anomalous) == Some(ranked[1]);
    }
  }

  /** Rank, then pick: with any stepped service in the graph the root cause is the first ranked
      service, an anomalous one, for every possible set of verdicts. */
  method RootCauseOf(edges: CallList, effects: Effects, nodes: seq<string>, calleeOrder: string -> seq<string>, verdicts: seq<Verdict>)
    returns (ranked: seq<string>, anomalous: set<string>, pick: Option<string>)
    requires Lists(nodes, Endpoints(edges))
    requires forall s :: Lists(calleeOrder(s), Callees(edges, s))
    ensures Lists(ranked, Endpoints(edges))
    ensures anomalous == AnomalousIn(edges, effects)
    ensures forall s :: s in anomalous <==> s in Endpoints(edges) && Steps(effects, s)
    ensures pick == Pick(ranked, verdicts, anomalous)
    ensures anomalous != {} ==> pick == Some(ranked[0]) && ranked[0] in anomalous
  {
    var regime;
    ranked, regime := Rank(edges, effects, nodes, calleeOrder);
    anomalous := AnomalousIn(edges, effects);
    forall s ensures Anomalous(effects, s) <==> Steps(effects, s) { AnomalousIff(effects, s); }
    pick := Pick(ranked, verdicts, anomalous);
    if anomalous != {} {
      var s :| s in anomalous;
      assert s in Endpoints(edges) && Anomalous(effects, s);
      FirstIsAnomalous(edges, effects, ranked);
      TopIsPicked(ranked, verdicts, anomalous);
    }
  }

  /** Some family of the service has an effect of 3 or more. */
  ghost predicate Steps(effects: Effects, s: string) {
    s in effects && exists f :: f in effects[s] && effects[s][f] >= 3.0
  }

  lemma {:induction false} AnomalousIff(effects: Effects, s: string)
    ensures Anomalous(effects, s) <==> Steps(effects, s)
  {
    ZTotalBounds(effects, s);
    if Steps(effects, s) {
      var f :| f in effects[s] && effects[s][f] >= 3.0;
      assert Z(effects, s, f) >= 3.0;
    }
  }

  function AnomalousIn(edges: CallList, effects: Effects): set<string> {
    set s | s in Endpoints(edges) && Anomalous(effects, s)
  }

  lemma {:induction false} FirstIsAnomalous(edges: CallList, effects: Effects, ranked: seq<string>)
    requires Lists(ranked, Endpoints(edges)) && ranked != [] && Anomalous(effects, ranked[0])
    ensures ranked[0] in AnomalousIn(edges, effects)
  {
    assert ranked[0] in ranked;
  }

  lemma {:induction false} TopIsPicked(ranked: seq<string>, verdicts: seq<Verdict>, anomalous: set<string>)
    requires ranked != [] && ranked[0] in anomalous
    ensures Pick(ranked, verdicts, anomalous) == Some(ranked[0])
  {
    PickIsAtOrAboveFirstAnomalous(ranked, verdicts, anomalous, 0);
  }

  /** After reconciliation a verdict on an anomalous candidate supports it, under the family that
      stepped hardest and with the families that stepped as its observations; any other verdict
      keeps its judgement. Both name their own candidate. */
  lemma {:induction false} ReconciledNeverRefutes(effects: Effects, candidate: string, v: Verdict)
    ensures var r := Reconcile(effects, candidate, v);
            if Anomalous(effects, candidate) then
              && r.supported == Some(true) && r.candidate == r.rootCause == Some(candidate)
              && r.signature.Some? && Z(effects, candidate, r.signature.value) == ZTotal(effects, candidate)
              && candidate in effects && r.observed.Keys == effects[candidate].Keys
              && forall f :: f in r.observed ==> (r.observed[f] <==> Stepped(effects, f, candidate))
            else
              && r.candidate == Some(candidate)
              && r.supported == v.supported && r.signature == v.signature && r.observed == v.observed
              && r.rootCause == if v.supported == Some(true) then Some(candidate) else v.rootCause
  {
    DominantIffAnomalous(effects, candidate);
  }
}
