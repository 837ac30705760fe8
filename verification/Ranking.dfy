/** The anomaly overlay that orders services origin first (sentinel/oss/topology.py). Sets
    are iterated in an order the source leaves open; here it is a parameter. */
module Ranking {
  import opened Common
  import opened Sorting
  import opened RankKeys
  import opened StarCoverage

  /** The centre of a star comes first, however loud the others are and whatever its role. */
  lemma {:induction false} CentreIsFirst(edges: CallList, effects: Effects, nodes: seq<string>, first: string, c: string)
    requires first in nodes && Centre(edges, effects, nodes, c)
    requires Lowest(LatencyKey(edges, effects, nodes), nodes, first)
    ensures first == c
  {
    CentreMissesNothing(edges, effects, nodes, c);
    MassAtLeast(edges, effects, nodes, c, true);
    forall t | t in nodes && Stepped(effects, Latency, t)
      ensures Mass(edges, effects, nodes, c, true) >= Mass(edges, effects, nodes, t, true)
    {
      OneTotal(edges, effects, nodes, c, t);
      MassAtLeast(edges, effects, nodes, t, false);
    }
    NearBestIff(edges, effects, nodes, c);
    LatencyBeats(edges, effects, nodes, first, c);
    OneTotal(edges, effects, nodes, c, first);
    NearBestIff(edges, effects, nodes, first);
  }

  // ----- steps of the ranking ---------------------------------------------------------------------------

  /** The dominant family: the largest effect anywhere, resource if none is positive. */
  method Dominant(nodes: seq<string>, effects: Effects) returns (dom: Family, domZ: real)
    ensures domZ >= 0.0 && forall s, f :: s in nodes ==> Z(effects, s, f) <= domZ
    ensures domZ > 0.0 ==> exists s :: s in nodes && Z(effects, s, dom) == domZ
  {
    dom, domZ := Resource, 0.0;
    for i := 0 to |nodes|
      invariant domZ >= 0.0 && forall s, f :: s in nodes[..i] ==> Z(effects, s, f) <= domZ
      invariant domZ > 0.0 ==> exists s :: s in nodes && Z(effects, s, dom) == domZ
    {
      var s := nodes[i];
      if Z(effects, s, Resource) > domZ { dom, domZ := Resource, Z(effects, s, Resource); }
      if Z(effects, s, Latency) > domZ { dom, domZ := Latency, Z(effects, s, Latency); }
      if Z(effects, s, Error) > domZ { dom, domZ := Error, Z(effects, s, Error); }
      forall t, f | t in nodes[..i + 1] ensures Z(effects, t, f) <= domZ {
        assert t in nodes[..i] || t == s;
        match f { case Resource => case Latency => case Error => }
      }
    }
    assert nodes[..|nodes|] == nodes;
  }

  /** max(transit, key=...): a callee in greatest distress, the first met on ties. */
  method MostDistressed(edges: CallList, effects: Effects, deepest: string, callees: seq<string>) returns (origin: Option<string>)
    requires Lists(callees, Callees(edges, deepest))
    ensures origin.None? ==> forall c :: !InTransit(edges, effects, deepest, c)
    ensures origin.Some? ==> WorstTransit(edges, effects, deepest, Callees(edges, deepest), origin.value)
  {
    origin := None;
    for i := 0 to |callees|
      invariant origin.None? ==> forall c :: c in callees[..i] ==> !InTransit(edges, effects, deepest, c)
      invariant origin.Some? ==>
        WorstTransit(edges, effects, deepest, (set c | c in callees[..i]), origin.value)
    {
      var c := callees[i];
      assert callees[..i + 1] == callees[..i] + [c];
      if InTransit(edges, effects, deepest, c) && (origin.None? || Transit(effects, c) > Transit(effects, origin.value)) {
        origin := Some(c);
      }
    }
    assert callees[..|callees|] == callees;
  }

  /** order.remove(x); order.insert(0, x) */
  method MoveToFront(order: seq<string>, x: string) returns (moved: seq<string>)
    requires x in order && Distinct(order)
    ensures moved != [] && moved[0] == x && Distinct(moved) && forall y :: y in moved <==> y in order
    ensures exists i :: 0 <= i < |order| && order[i] == x && moved[1..] == order[..i] + order[i + 1..]
  {
    var i := 0;
    while order[i] != x
      invariant 0 <= i < |order| && x in order[i..]
      decreases |order| - i
    {
      i := i + 1;
    }
    moved := [x] + (order[..i] + order[i + 1..]);
    assert moved[1..] == order[..i] + order[i + 1..];
    assert order == order[..i] + [x] + order[i + 1..];
  }

  // ----- what each regime looks for, over calls and effect sizes -------------------------------------

  function CallsInto(edges: CallList, s: string): nat {
    if edges == [] then 0 else (if edges[0].1 == s then 1 else 0) + CallsInto(edges[1..], s)
  }

  /** Nobody calls it, or it is known to stand for the traffic. */
  predicate Accumulates(edges: CallList, s: string) {
    || CallsInto(edges, s) == 0
    || s == "load-generator" || s == "loadgenerator"
    || s == "frontend-proxy" || s == "frontendproxy" || s == "frontend-web"
  }

  lemma {:induction false} DemotedIff(edges: CallList, s: string)
    ensures Demoted(edges, s) <==> Accumulates(edges, s)
  {
    NotCalledIff(edges, s);
  }

  lemma {:induction false} NotCalledIff(edges: CallList, s: string)
    ensures CallsInto(edges, s) == 0 <==> forall e :: e in edges ==> e.1 != s
  {
    if edges == [] {
    } else {
      NotCalledIff(edges[1..], s);
      assert edges == [edges[0]] + edges[1..];
    }
  }

  /** s fails and calls nothing that does. */
  ghost predicate FailsDeepest(edges: CallList, effects: Effects, s: string) {
    Z(effects, s, Error) >= 3.0 && forall i :: 0 <= i < |edges| && edges[i].0 == s ==> Z(effects, edges[i].1, Error) < 3.0
  }

  lemma {:induction false} ErrorFrontierIff(edges: CallList, effects: Effects, s: string)
    ensures ErrorFrontier(edges, effects, s) <==> FailsDeepest(edges, effects, s)
  {
    assert forall i :: 0 <= i < |edges| && edges[i].0 == s ==> edges[i].1 in Callees(edges, s);
  }

  /** c is called by deepest and is slow or short of resources without failing itself. */
  ghost predicate Distressed(edges: CallList, effects: Effects, deepest: string, c: string) {
    && (exists i :: 0 <= i < |edges| && edges[i] == (deepest, c))
    && (Z(effects, c, Latency) >= 3.0 || Z(effects, c, Resource) >= 3.0) && Z(effects, c, Error) < 3.0
  }

  lemma {:induction false} InTransitIff(edges: CallList, effects: Effects, deepest: string, c: string)
    ensures InTransit(edges, effects, deepest, c) <==> Distressed(edges, effects, deepest, c)
  {}

  ghost predicate MostDistressedOf(edges: CallList, effects: Effects, deepest: string, c: string) {
    && Distressed(edges, effects, deepest, c)
    && forall d, f :: Distressed(edges, effects, deepest, d) && f != Error ==>
         Z(effects, d, f) <= Z(effects, c, Latency) || Z(effects, d, f) <= Z(effects, c, Resource)
  }

  /** What each regime puts first. */
  ghost predicate FirstFits(edges: CallList, effects: Effects, nodes: seq<string>, regime: Regime, first: string) {
    match regime
    case Quiet =>
      forall s, f :: s in nodes ==> Z(effects, s, f) < 3.0 && ZTotal(effects, s) <= ZTotal(effects, first)
    case Regime(Resource) => forall s, f :: s in nodes ==> Z(effects, s, f) <= Z(effects, first, Resource)
    case Regime(Latency) =>
      && Z(effects, first, Latency) >= 3.0 && CoversNearlyMost(edges, effects, nodes, first)
      && (Accumulates(edges, first) ==>
            forall s :: s in nodes && Z(effects, s, Latency) >= 3.0 && CoversNearlyMost(edges, effects, nodes, s)
                        ==> Accumulates(edges, s))
      && forall c :: Centre(edges, effects, nodes, c) ==> first == c
    case Regime(Error) =>
      exists deepest :: deepest in nodes && Z(effects, deepest, Error) >= 3.0
        && ((exists s :: s in nodes && FailsDeepest(edges, effects, s)) ==> FailsDeepest(edges, effects, deepest))
        && if first == deepest then forall c :: !Distressed(edges, effects, deepest, c)
           else MostDistressedOf(edges, effects, deepest, first)
  }

  // ----- and how it orders the rest, comparison by comparison ------------------------------------------

  /** First by the greater x, else by not carrying the flag, else by what follows. */
  predicate Greater(x: real, y: real, otherwise: bool) {
    x > y || (x == y && otherwise)
  }

  predicate Having(x: bool, y: bool, otherwise: bool) {
    (x && !y) || (x == y && otherwise)
  }

  ghost predicate RanksBefore(edges: CallList, effects: Effects, nodes: seq<string>, regime: Regime, a: string, b: string) {
    match regime
    case Quiet =>
      Greater(ZTotal(effects, a), ZTotal(effects, b),
        Having(!Accumulates(edges, a), !Accumulates(edges, b), TextLeq(a, b)))
    case Regime(Resource) =>
      Greater(Z(effects, a, Resource), Z(effects, b, Resource),
        Having(!Synthetic(a), !Synthetic(b),
          Greater(ZTotal(effects, a), ZTotal(effects, b), TextLeq(a, b))))
    case Regime(Latency) =>
      var slowA, slowB := Z(effects, a, Latency) >= 3.0, Z(effects, b, Latency) >= 3.0;
      Having(slowA, slowB,
        Having(slowA && CoversNearlyMost(edges, effects, nodes, a), slowB && CoversNearlyMost(edges, effects, nodes, b),
          Having(!Accumulates(edges, a), !Accumulates(edges, b),
            Greater(if slowA then Mass(edges, effects, nodes, a, true) else 0.0,
                    if slowB then Mass(edges, effects, nodes, b, true) else 0.0,
              Greater(ZTotal(effects, a), ZTotal(effects, b), TextLeq(a, b))))))
    case Regime(Error) =>
      Having(Z(effects, a, Error) >= 3.0, Z(effects, b, Error) >= 3.0,
        Having(FailsDeepest(edges, effects, a), FailsDeepest(edges, effects, b),
          Having(!Accumulates(edges, a), !Accumulates(edges, b),
            Greater(Z(effects, a, Error), Z(effects, b, Error), TextLeq(a, b)))))
  }

  ghost predicate InRank(edges: CallList, effects: Effects, nodes: seq<string>, regime: Regime, xs: seq<string>) {
    forall i, j :: 0 <= i < j < |xs| ==> RanksBefore(edges, effects, nodes, regime, xs[i], xs[j])
  }

  lemma {:induction false} Unlist(x: real, xs: seq<real>, y: real, ys: seq<real>, tie: bool)
    ensures NumsLeq([x] + xs, [y] + ys, tie) <==> x < y || (x == y && NumsLeq(xs, ys, tie))
  {
    assert ([x] + xs)[1..] == xs && ([y] + ys)[1..] == ys;
  }

  lemma {:induction false} TwoNums(x: seq<real>, y: seq<real>, tie: bool)
    requires |x| == |y| == 2
    ensures NumsLeq(x, y, tie) <==> x[0] < y[0] || (x[0] == y[0] && (x[1] < y[1] || (x[1] == y[1] && tie)))
  {
    assert x[1..] == [x[1]] + [] && y[1..] == [y[1]] + [];
    Unlist(x[1], [], y[1], [], tie);
  }

  lemma {:induction false} ThreeNums(x: seq<real>, y: seq<real>, tie: bool)
    requires |x| == |y| == 3
    ensures NumsLeq(x, y, tie) <==> x[0] < y[0] || (x[0] == y[0] && (x[1] < y[1] || (x[1] == y[1] && (x[2] < y[2] || (x[2] == y[2] && tie)))))
  {
    TwoNums(x[1..], y[1..], tie);
  }

  lemma {:induction false} QuietOrder(edges: CallList, effects: Effects, nodes: seq<string>, a: string, b: string)
    requires KeyLeq(QuietKey(edges, effects)(a), QuietKey(edges, effects)(b))
    ensures RanksBefore(edges, effects, nodes, Quiet, a, b)
  {
    TwoNums(QuietKey(edges, effects)(a).nums, QuietKey(edges, effects)(b).nums, TextLeq(a, b));
    DemotedIff(edges, a);
    DemotedIff(edges, b);
  }

  lemma {:induction false} ResourceOrder(edges: CallList, effects: Effects, nodes: seq<string>, a: string, b: string)
    requires KeyLeq(ResourceKey(effects)(a), ResourceKey(effects)(b))
    ensures RanksBefore(edges, effects, nodes, Regime(Resource), a, b)
  {
    ThreeNums(ResourceKey(effects)(a).nums, ResourceKey(effects)(b).nums, TextLeq(a, b));
  }

  lemma {:induction false} ErrorOrder(edges: CallList, effects: Effects, nodes: seq<string>, a: string, b: string)
    requires KeyLeq(ErrorKey(edges, effects)(a), ErrorKey(edges, effects)(b))
    ensures RanksBefore(edges, effects, nodes, Regime(Error), a, b)
  {
    var x, y := ErrorKey(edges, effects)(a).nums, ErrorKey(edges, effects)(b).nums;
    assert x[0] == y[0] ==> NumsLeq(x[1..], y[1..], TextLeq(a, b));
    if x[0] == y[0] { ThreeNums(x[1..], y[1..], TextLeq(a, b)); }
    DemotedIff(edges, a);
    DemotedIff(edges, b);
    ErrorFrontierIff(edges, effects, a);
    ErrorFrontierIff(edges, effects, b);
  }

  lemma {:induction false} LatencyOrder(edges: CallList, effects: Effects, nodes: seq<string>, a: string, b: string)
    requires a in nodes && b in nodes
    requires KeyLeq(LatencyKey(edges, effects, nodes)(a), LatencyKey(edges, effects, nodes)(b))
    ensures RanksBefore(edges, effects, nodes, Regime(Latency), a, b)
  {
    FiveNums(LatencyKey(edges, effects, nodes)(a).nums, LatencyKey(edges, effects, nodes)(b).nums, TextLeq(a, b));
    DemotedIff(edges, a);
    DemotedIff(edges, b);
    if Stepped(effects, Latency, a) && Stepped(effects, Latency, b) {
      SteppedOrder(edges, effects, nodes, a, b);
    }
  }

  lemma {:induction false} SteppedOrder(edges: CallList, effects: Effects, nodes: seq<string>, a: string, b: string)
    requires a in nodes && b in nodes && Stepped(effects, Latency, a) && Stepped(effects, Latency, b)
    ensures NearBest(edges, effects, nodes, a) <==> CoversNearlyMost(edges, effects, nodes, a)
    ensures NearBest(edges, effects, nodes, b) <==> CoversNearlyMost(edges, effects, nodes, b)
    ensures Coverage(edges, effects, nodes, a) > Coverage(edges, effects, nodes, b)
       <==> Mass(edges, effects, nodes, a, true) > Mass(edges, effects, nodes, b, true)
    ensures Coverage(edges, effects, nodes, a) == Coverage(edges, effects, nodes, b)
       <==> Mass(edges, effects, nodes, a, true) == Mass(edges, effects, nodes, b, true)
  {
    NearBestIff(edges, effects, nodes, a);
    NearBestIff(edges, effects, nodes, b);
    SharesCompare(edges, effects, nodes, a, b);
  }

  lemma {:induction false} FiveNums(x: seq<real>, y: seq<real>, tie: bool)
    requires |x| == |y| == 5
    ensures NumsLeq(x, y, tie) <==>
      x[0] < y[0] || (x[0] == y[0] && (x[1] < y[1] || (x[1] == y[1] && (x[2] < y[2] || (x[2] == y[2] &&
        (x[3] < y[3] || (x[3] == y[3] && (x[4] < y[4] || (x[4] == y[4] && tie)))))))))
  {
    ThreeNums(x[2..], y[2..], tie);
    assert x[1..][1..] == x[2..] && y[1..][1..] == y[2..];
    if x[0] == y[0] { assert NumsLeq(x, y, tie) == NumsLeq(x[1..], y[1..], tie); }
    if x[1] == y[1] { assert NumsLeq(x[1..], y[1..], tie) == NumsLeq(x[2..], y[2..], tie); }
  }

  lemma {:induction false} SortedIsInRank(edges: CallList, effects: Effects, nodes: seq<string>, regime: Regime, xs: seq<string>)
    requires SortedBy(xs, ByKey(KeyOf(edges, effects, nodes, regime)))
    requires forall x :: x in xs ==> x in nodes
    ensures InRank(edges, effects, nodes, regime, xs)
  {
    forall i, j | 0 <= i < j < |xs| ensures RanksBefore(edges, effects, nodes, regime, xs[i], xs[j]) {
      assert ByKey(KeyOf(edges, effects, nodes, regime))(xs[i], xs[j]);
      match regime {
        case Quiet => QuietOrder(edges, effects, nodes, xs[i], xs[j]);
        case Regime(Resource) => ResourceOrder(edges, effects, nodes, xs[i], xs[j]);
        case Regime(Latency) => LatencyOrder(edges, effects, nodes, xs[i], xs[j]);
        case Regime(Error) => ErrorOrder(edges, effects, nodes, xs[i], xs[j]);
      }
    }
  }

  lemma {:induction false} ResourceFirst(edges: CallList, effects: Effects, nodes: seq<string>, first: string, top: string)
    requires Peak(effects, nodes, Resource, top)
    requires Lowest(ResourceKey(effects), nodes, first)
    ensures FirstFits(edges, effects, nodes, Regime(Resource), first) && Anomalous(effects, first)
  {
    assert KeyLeq(ResourceKey(effects)(first), ResourceKey(effects)(top));
    ZTotalBounds(effects, first);
  }

  lemma {:induction false} LatencyBeats(edges: CallList, effects: Effects, nodes: seq<string>, first: string, s: string)
    requires KeyLeq(LatencyKey(edges, effects, nodes)(first), LatencyKey(edges, effects, nodes)(s))
    requires Stepped(effects, Latency, s)
    ensures Stepped(effects, Latency, first)
    ensures NearBest(edges, effects, nodes, s) ==> NearBest(edges, effects, nodes, first)
    ensures NearBest(edges, effects, nodes, s) && Demoted(edges, first) ==> Demoted(edges, s)
  {
    ThreeFlags(LatencyKey(edges, effects, nodes)(first), LatencyKey(edges, effects, nodes)(s));
  }

  lemma {:induction false} BestIsNearBest(edges: CallList, effects: Effects, nodes: seq<string>, top: string) returns (best: string)
    requires top in nodes && Stepped(effects, Latency, top)
    ensures best in nodes && Stepped(effects, Latency, best) && NearBest(edges, effects, nodes, best)
  {
    SteppedOnlyMembers(effects, Latency, nodes);
    best := BestIsAttained(edges, effects, nodes, SteppedOnly(effects, Latency, nodes));
  }

  lemma {:induction false} LatencyFirst(edges: CallList, effects: Effects, nodes: seq<string>, first: string, top: string)
    requires top in nodes && Stepped(effects, Latency, top)
    requires first in nodes && Lowest(LatencyKey(edges, effects, nodes), nodes, first)
    ensures FirstFits(edges, effects, nodes, Regime(Latency), first) && Anomalous(effects, first)
  {
    var best := BestIsNearBest(edges, effects, nodes, top);
    LatencyBeats(edges, effects, nodes, first, best);
    NearBestIff(edges, effects, nodes, first);
    forall s | s in nodes && Stepped(effects, Latency, s) && CoversNearlyMost(edges, effects, nodes, s)
      ensures Accumulates(edges, first) ==> Accumulates(edges, s)
    {
      NearBestIff(edges, effects, nodes, s);
      LatencyBeats(edges, effects, nodes, first, s);
      DemotedIff(edges, first);
      DemotedIff(edges, s);
    }
    forall c | Centre(edges, effects, nodes, c) ensures first == c { CentreIsFirst(edges, effects, nodes, first, c); }
    ZTotalBounds(effects, first);
  }

  lemma {:induction false} ErrorFirst(edges: CallList, effects: Effects, nodes: seq<string>, first: string, top: string)
    requires top in nodes && Stepped(effects, Error, top)
    requires Lowest(ErrorKey(edges, effects), nodes, first)
    ensures Stepped(effects, Error, first) && Anomalous(effects, first)
    ensures (exists s :: s in nodes && ErrorFrontier(edges, effects, s)) ==> ErrorFrontier(edges, effects, first)
  {
    var key := ErrorKey(edges, effects);
    ThreeFlags(key(first), key(top));
    if s :| s in nodes && ErrorFrontier(edges, effects, s) { ThreeFlags(key(first), key(s)); }
    ZTotalBounds(effects, first);
  }

  lemma {:induction false} QuietFirst(edges: CallList, effects: Effects, nodes: seq<string>, first: string)
    requires forall s, f :: s in nodes ==> Z(effects, s, f) < Z_MIN
    requires first in nodes
    requires Lowest(QuietKey(edges, effects), nodes, first)
    ensures FirstFits(edges, effects, nodes, Quiet, first)
  {
    forall s | s in nodes ensures ZTotal(effects, s) <= ZTotal(effects, first) {
      assert KeyLeq(QuietKey(edges, effects)(first), QuietKey(edges, effects)(s));
    }
  }

  /** _rank: a permutation of the edge endpoints that begins with the origin its regime picks,
      and with an anomalous service whenever any endpoint is anomalous. */
  method Rank(edges: CallList, effects: Effects, nodes: seq<string>, calleeOrder: string -> seq<string>)
    returns (order: seq<string>, regime: Regime)
    requires Lists(nodes, Endpoints(edges))
    requires forall s :: Lists(calleeOrder(s), Callees(edges, s))
    ensures Lists(order, Endpoints(edges))
    ensures order != [] ==> FirstFits(edges, effects, nodes, regime, order[0])
    ensures regime == Regime(Error) ==> order != [] && SortedBy(order[1..], ByKey(ErrorKey(edges, effects)))
    ensures regime != Regime(Error) ==> SortedBy(order, ByKey(KeyOf(edges, effects, nodes, regime)))
    ensures InRank(edges, effects, nodes, regime, if regime == Regime(Error) then order[1..] else order)
    ensures Governs(effects, nodes, regime)
    ensures (exists s :: s in Endpoints(edges) && Anomalous(effects, s)) ==> order != [] && Anomalous(effects, order[0])
  {
    var dom, domZ := Dominant(nodes, effects);
    AnomalyIsDominant(effects, nodes, domZ);
    if domZ < Z_MIN {
      regime := Quiet;
      order := OrderBy(nodes, Endpoints(edges), QuietKey(edges, effects));
      if order != [] { QuietFirst(edges, effects, nodes, order[0]); }
    } else {
      regime := Regime(dom);
      ghost var top :| top in nodes && Z(effects, top, dom) == domZ;
      assert Peak(effects, nodes, dom, top);
      order := RankStepped(edges, effects, nodes, calleeOrder, dom, top);
    }
    SortedIsInRank(edges, effects, nodes, regime, if regime == Regime(Error) then order[1..] else order);
  }

  /** The three regimes of a graph in which something stepped. */
  method RankStepped(edges: CallList, effects: Effects, nodes: seq<string>, calleeOrder: string -> seq<string>,
                     dom: Family, ghost top: string)
    returns (order: seq<string>)
    requires Lists(nodes, Endpoints(edges)) && Peak(effects, nodes, dom, top)
    requires forall s :: Lists(calleeOrder(s), Callees(edges, s))
    ensures Lists(order, Endpoints(edges)) && order != []
    ensures FirstFits(edges, effects, nodes, Regime(dom), order[0]) && Anomalous(effects, order[0])
    ensures dom == Error ==> SortedBy(order[1..], ByKey(ErrorKey(edges, effects)))
    ensures dom != Error ==> SortedBy(order, ByKey(KeyOf(edges, effects, nodes, Regime(dom))))
  {
    match dom {
      case Resource =>
        order := OrderBy(nodes, Endpoints(edges), ResourceKey(effects));
        ResourceFirst(edges, effects, nodes, order[0], top);
      case Latency =>
        order := OrderBy(nodes, Endpoints(edges), LatencyKey(edges, effects, nodes));
        LatencyFirst(edges, effects, nodes, order[0], top);
      case Error =>
        order := RankErrors(edges, effects, nodes, calleeOrder, top);
    }
  }

  /** top stepped in f, and no effect of any family anywhere exceeds it. */
  ghost predicate Peak(effects: Effects, nodes: seq<string>, f: Family, top: string) {
    top in nodes && Stepped(effects, f, top) && forall s, g :: s in nodes ==> Z(effects, s, g) <= Z(effects, top, f)
  }

  /** The regime is that of a largest effect, and quiet only if nothing is anomalous. */
  ghost predicate Governs(effects: Effects, nodes: seq<string>, regime: Regime) {
    match regime
    case Quiet => forall s :: s in nodes ==> !Anomalous(effects, s)
    case Regime(f) => exists top :: Peak(effects, nodes, f, top)
  }

  /** sorted(services, key=key) */
  method OrderBy(nodes: seq<string>, ghost s: set<string>, key: string -> Key) returns (order: seq<string>)
    requires Lists(nodes, s)
    ensures Lists(order, s) && SortedBy(order, ByKey(key)) && (order == [] <==> nodes == [])
    ensures order != [] ==> order[0] in s && Lowest(key, nodes, order[0])
  {
    SortedByKey(nodes, s, key);
    order := Sort(nodes, ByKey(key));
  }

  lemma {:induction false} AnomalyIsDominant(effects: Effects, nodes: seq<string>, domZ: real)
    requires forall s, f :: s in nodes ==> Z(effects, s, f) <= domZ
    ensures domZ < Z_MIN ==> forall s :: s in nodes ==> !Anomalous(effects, s)
  {
    forall s | s in nodes ensures domZ < Z_MIN ==> !Anomalous(effects, s) { ZTotalBounds(effects, s); }
  }

  /** The error regime: deepest failing service first, then one hop down to a distressed callee. */
  method RankErrors(edges: CallList, effects: Effects, nodes: seq<string>, calleeOrder: string -> seq<string>, ghost top: string)
    returns (order: seq<string>)
    requires Lists(nodes, Endpoints(edges))
    requires forall s :: Lists(calleeOrder(s), Callees(edges, s))
    requires top in nodes && Stepped(effects, Error, top)
    ensures Lists(order, Endpoints(edges)) && order != []
    ensures FirstFits(edges, effects, nodes, Regime(Error), order[0]) && Anomalous(effects, order[0])
    ensures SortedBy(order[1..], ByKey(ErrorKey(edges, effects)))
  {
    order := OrderBy(nodes, Endpoints(edges), ErrorKey(edges, effects));
    ErrorFirst(edges, effects, nodes, order[0], top);
    var deepest := order[0];
    assert deepest in order;
    ghost var leq := ByKey(ErrorKey(edges, effects));
    order := Promote(edges, effects, calleeOrder(deepest), order, leq);
    OriginFits(edges, effects, nodes, deepest, order[0]);
  }

  /** Descend one hop from order[0] if one of its callees is in transit distress. */
  method Promote(edges: CallList, effects: Effects, callees: seq<string>, order0: seq<string>, ghost leq: (string, string) -> bool)
    returns (order: seq<string>)
    requires Lists(order0, Endpoints(edges)) && order0 != [] && SortedBy(order0, leq)
    requires Lists(callees, Callees(edges, order0[0])) && Stepped(effects, Error, order0[0])
    ensures Lists(order, Endpoints(edges)) && order != [] && SortedBy(order[1..], leq)
    ensures if order[0] == order0[0] then forall c :: !InTransit(edges, effects, order0[0], c)
            else WorstTransit(edges, effects, order0[0], Callees(edges, order0[0]), order[0])
  {
    order := order0;
    var origin := MostDistressed(edges, effects, order0[0], callees);
    TailKeepsOrder(order0, leq);
    if origin.Some? {
      assert origin.value in Endpoints(edges);
      order := MoveToFront(order0, origin.value);
      RemovalKeepsOrder(order0, order[1..], origin.value, leq);
    }
  }

  lemma {:induction false} RemovalKeepsOrder(order: seq<string>, rest: seq<string>, x: string, leq: (string, string) -> bool)
    requires SortedBy(order, leq)
    requires exists i :: 0 <= i < |order| && order[i] == x && rest == order[..i] + order[i + 1..]
    ensures SortedBy(rest, leq)
  {}

  lemma {:induction false} TailKeepsOrder(order: seq<string>, leq: (string, string) -> bool)
    requires SortedBy(order, leq) && order != []
    ensures SortedBy(order[1..], leq)
  {}

  lemma {:induction false} OriginFits(edges: CallList, effects: Effects, nodes: seq<string>, deepest: string, first: string)
    requires deepest in nodes && Stepped(effects, Error, deepest)
    requires (exists s :: s in nodes && ErrorFrontier(edges, effects, s)) ==> ErrorFrontier(edges, effects, deepest)
    requires if first == deepest then forall c :: !InTransit(edges, effects, deepest, c)
             else WorstTransit(edges, effects, deepest, Callees(edges, deepest), first)
    ensures FirstFits(edges, effects, nodes, Regime(Error), first) && Anomalous(effects, first)
  {
    forall s ensures ErrorFrontier(edges, effects, s) <==> FailsDeepest(edges, effects, s) { ErrorFrontierIff(edges, effects, s); }
    forall c ensures InTransit(edges, effects, deepest, c) <==> Distressed(edges, effects, deepest, c) {
      InTransitIff(edges, effects, deepest, c);
    }
    if first != deepest { WorstIsMost(edges, effects, deepest, first); }
    ZTotalBounds(effects, first);
  }

  lemma {:induction false} WorstIsMost(edges: CallList, effects: Effects, deepest: string, c: string)
    requires WorstTransit(edges, effects, deepest, Callees(edges, deepest), c)
    ensures MostDistressedOf(edges, effects, deepest, c)
  {
    InTransitIff(edges, effects, deepest, c);
    forall d, f | Distressed(edges, effects, deepest, d) && f != Error
      ensures Z(effects, d, f) <= Z(effects, c, Latency) || Z(effects, d, f) <= Z(effects, c, Resource)
    {
      InTransitIff(edges, effects, deepest, d);
      match f { case Resource => case Latency => }
    }
  }
}
