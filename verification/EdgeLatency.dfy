/** traces_edge_latency_origin (sentinel/tools/traces.py): the service that best explains the
    call edges that slowed, over exact reals. The percentile is any function of the samples. */
module EdgeLatency {
  import opened Common
  import opened Sorting
  import opened Topology

  type Samples = map<(Service, Service), seq<real>>

  type Percentile = seq<real> -> real

  datatype Shift = Shift(caller: Service, callee: Service, ms: real)

  /** How a slowed edge relates to the attributed origin. */
  datatype Role = Into | Outbound | Victim | Unexplained

  const LISTED: nat := 20

  /** The attributed service, its class, the slowed edges listed, and the role of each slowed edge. */
  datatype Origin = Origin(service: Service, network: bool, listed: seq<Shift>, roles: seq<Role>)

  datatype Score = Score(explained: real, coverage: real, inbound: nat)

  // ----- the edges that slowed ---------------------------------------------------------------

  function SamplesOf(samples: Samples, e: (Service, Service)): seq<real> {
    if e in samples then samples[e] else []
  }

  function ShiftOf(p95: Percentile, pre: Samples, post: Samples, e: (Service, Service)): Shift {
    Shift(e.0, e.1, p95(SamplesOf(post, e)) - p95(SamplesOf(pre, e)))
  }

  function AtLeast(p95: Percentile, pre: Samples, post: Samples, order: seq<(Service, Service)>, floor: real): seq<Shift> {
    if order == [] then []
    else
      var s := ShiftOf(p95, pre, post, order[0]);
      (if s.ms >= floor then [s] else []) + AtLeast(p95, pre, post, order[1..], floor)
  }

  predicate LargerFirst(a: Shift, b: Shift) {
    a.ms >= b.ms
  }

  function Degraded(p95: Percentile, pre: Samples, post: Samples, order: seq<(Service, Service)>, floor: real): seq<Shift> {
    Sort(AtLeast(p95, pre, post, order, floor), LargerFirst)
  }

  function Graph(ds: seq<Shift>): Edges {
    set s | s in ds :: (s.caller, s.callee)
  }

  // ----- what a candidate explains -------------------------------------------------------------

  /** b is a, or lies down a chain of edges from a. */
  ghost predicate Chains(g: Edges, a: Service, b: Service) {
    exists p :: Joins(g, p, a, b)
  }

  ghost predicate Explains(ds: seq<Shift>, s: Shift, x: Service) {
    s.callee == x || s.caller == x || Chains(Graph(ds), s.callee, x)
  }

  function TotalMs(ds: seq<Shift>): real {
    if ds == [] then 0.0 else ds[0].ms + TotalMs(ds[1..])
  }

  ghost function ExplainedMs(ds: seq<Shift>, among: seq<Shift>, x: Service): real {
    if among == [] then 0.0
    else (if Explains(ds, among[0], x) then among[0].ms else 0.0) + ExplainedMs(ds, among[1..], x)
  }

  function InboundCount(ds: seq<Shift>, x: Service): nat {
    if ds == [] then 0 else (if ds[0].callee == x then 1 else 0) + InboundCount(ds[1..], x)
  }

  function Slowed(ds: seq<Shift>, x: Service): set<Service> {
    set s | s in ds && s.callee == x :: s.caller
  }

  function Callers(known: Edges, x: Service): set<Service> {
    set e | e in known && e.1 == x :: e.0
  }

  function Coverage(ds: seq<Shift>, known: Edges, x: Service): real {
    var all := |Callers(known, x)|;
    |Slowed(ds, x)| as real / (if all < 1 then 1 else all) as real
  }

  ghost function ScoreOf(ds: seq<Shift>, known: Edges, x: Service): Score
    requires TotalMs(ds) != 0.0
  {
    Score(ExplainedMs(ds, ds, x) / TotalMs(ds), Coverage(ds, known, x), InboundCount(ds, x))
  }

  /** Tuple comparison. */
  predicate Lower(a: Score, b: Score) {
    if a.explained != b.explained then a.explained < b.explained
    else if a.coverage != b.coverage then a.coverage < b.coverage
    else a.inbound < b.inbound
  }

  /** The services some slowed edge enters, in order of first appearance. */
  function Candidates(ds: seq<Shift>): seq<Service> {
    if ds == [] then []
    else
      var n := |ds| - 1;
      var front := Candidates(ds[..n]);
      if ds[n].callee in front then front else front + [ds[n].callee]
  }

  /** max(inbound, key=_score): no candidate scores higher, and none before it as high. */
  ghost predicate Attributed(ds: seq<Shift>, known: Edges, x: Service)
    requires TotalMs(ds) != 0.0
  {
    exists k :: FirstBest(ds, known, Candidates(ds), k) && Candidates(ds)[k] == x
  }

  ghost predicate FirstBest(ds: seq<Shift>, known: Edges, xs: seq<Service>, k: int)
    requires TotalMs(ds) != 0.0
  {
    && 0 <= k < |xs|
    && (forall j :: 0 <= j < |xs| ==> !Lower(ScoreOf(ds, known, xs[k]), ScoreOf(ds, known, xs[j])))
    && (forall j :: 0 <= j < k ==> Lower(ScoreOf(ds, known, xs[j]), ScoreOf(ds, known, xs[k])))
  }

  ghost function RoleOf(ds: seq<Shift>, s: Shift, x: Service): Role {
    if s.caller == x then Outbound
    else if s.callee == x then Into
    else if Chains(Graph(ds), s.callee, x) then Victim
    else Unexplained
  }

  // ----- the depth-first search ------------------------------------------------------------------

  /** _reaches: a stack, a set of visited services, and neighbours pushed in any order. */
  method ReachesDown(adj: map<Service, set<Service>>, ghost g: Edges, start: Service, target: Service) returns (found: bool)
    requires forall v :: Adjacent(adj, v) == Successors(g, v)
    ensures found <==> Chains(g, start, target)
  {
    var seen: set<Service> := {};
    var stack := [start];
    assert Joins(g, stack, start, start);
    while stack != []
      invariant seen <= Nodes(g) + {start} && target !in seen
      invariant forall i :: 0 <= i < |stack| ==> Chains(g, start, stack[i])
      invariant start in seen || start in stack
      invariant forall v, w :: v in seen && w in Successors(g, v) ==> w in seen || w in stack
      decreases Nodes(g) + {start} - seen, |stack|
    {
      var cur := stack[|stack| - 1];
      ghost var before := stack;
      stack := stack[..|stack| - 1];
      assert before == stack + [cur];
      if cur == target { return true; }
      if cur !in seen {
        ChainNodes(g, start, cur);
        seen := seen + {cur};
        stack := PushAll(adj, g, start, cur, stack);
      }
    }
    if Chains(g, start, target) { ClosedHoldsChains(g, start, target, seen); }
    found := false;
  }

  method PushAll(adj: map<Service, set<Service>>, ghost g: Edges, ghost start: Service, cur: Service, stack0: seq<Service>)
    returns (stack: seq<Service>)
    requires Adjacent(adj, cur) == Successors(g, cur) && Chains(g, start, cur)
    requires forall i :: 0 <= i < |stack0| ==> Chains(g, start, stack0[i])
    ensures stack0 <= stack && forall w :: w in stack <==> w in stack0 || w in Successors(g, cur)
    ensures forall i :: 0 <= i < |stack| ==> Chains(g, start, stack[i])
  {
    stack := stack0;
    var todo := Adjacent(adj, cur);
    while todo != {}
      invariant todo <= Successors(g, cur) && stack0 <= stack
      invariant forall w :: w in stack <==> w in stack0 || w in Successors(g, cur) - todo
      invariant forall i :: 0 <= i < |stack| ==> Chains(g, start, stack[i])
    {
      var w :| w in todo;
      ChainGrows(g, start, cur, w);
      todo := todo - {w};
      stack := stack + [w];
    }
  }

  lemma {:induction false} ChainGrows(g: Edges, a: Service, v: Service, w: Service)
    requires Chains(g, a, v) && w in Successors(g, v)
    ensures Chains(g, a, w)
  {
    var p :| Joins(g, p, a, v);
    assert Joins(g, p + [w], a, w);
  }

  lemma {:induction false} ChainNodes(g: Edges, a: Service, v: Service)
    requires Chains(g, a, v)
    ensures v == a || v in Nodes(g)
  {
    var p :| Joins(g, p, a, v);
    if |p| > 1 { assert (p[|p| - 2], p[|p| - 1]) in g; }
  }

  lemma {:induction false} ClosedHoldsChains(g: Edges, a: Service, b: Service, seen: set<Service>)
    requires a in seen && Chains(g, a, b)
    requires forall v, w :: v in seen && w in Successors(g, v) ==> w in seen
    ensures b in seen
  {
    var p :| Joins(g, p, a, b);
    if |p| > 1 { PathStaysInside(g, p, seen, |p| - 1); }
  }

  // ----- the tool ------------------------------------------------------------------------------------

  method IsExplained(ds: seq<Shift>, adj: map<Service, set<Service>>, s: Shift, x: Service) returns (yes: bool)
    requires forall v :: Adjacent(adj, v) == Successors(Graph(ds), v)
    ensures yes <==> Explains(ds, s, x)
  {
    if s.callee == x || s.caller == x { return true; }
    yes := ReachesDown(adj, Graph(ds), s.callee, x);
  }

  method SumExplained(ds: seq<Shift>, adj: map<Service, set<Service>>, x: Service) returns (ms: real)
    requires forall v :: Adjacent(adj, v) == Successors(Graph(ds), v)
    ensures ms == ExplainedMs(ds, ds, x)
  {
    ms := 0.0;
    for i := 0 to |ds|
      invariant ms + ExplainedMs(ds, ds[i..], x) == ExplainedMs(ds, ds, x)
    {
      var yes := IsExplained(ds, adj, ds[i], x);
      assert ds[i..][1..] == ds[i + 1..];
      if yes { ms := ms + ds[i].ms; }
    }
  }

  method BestCandidate(ds: seq<Shift>, adj: map<Service, set<Service>>, known: Edges, total: real) returns (x: Service)
    requires forall v :: Adjacent(adj, v) == Successors(Graph(ds), v)
    requires ds != [] && total == TotalMs(ds) != 0.0
    ensures Attributed(ds, known, x)
  {
    CandidatesMembers(ds);
    var xs := Candidates(ds);
    assert ds[0].callee in xs;
    var best := 0;
    var ms := SumExplained(ds, adj, xs[0]);
    var top := Score(ms / total, Coverage(ds, known, xs[0]), InboundCount(ds, xs[0]));
    for i := 1 to |xs|
      invariant 0 <= best < i && top == ScoreOf(ds, known, xs[best])
      invariant forall j :: 0 <= j < i ==> !Lower(top, ScoreOf(ds, known, xs[j]))
      invariant forall j :: 0 <= j < best ==> Lower(ScoreOf(ds, known, xs[j]), top)
    {
      ms := SumExplained(ds, adj, xs[i]);
      var score := Score(ms / total, Coverage(ds, known, xs[i]), InboundCount(ds, xs[i]));
      if Lower(top, score) { best, top := i, score; }
    }
    x := xs[best];
    assert FirstBest(ds, known, xs, best);
  }

  /** The roles the evidence lines give the slowed edges. */
  method Roles(ds: seq<Shift>, adj: map<Service, set<Service>>, x: Service) returns (roles: seq<Role>)
    requires forall v :: Adjacent(adj, v) == Successors(Graph(ds), v)
    ensures |roles| == |ds| && forall i :: 0 <= i < |ds| ==> roles[i] == RoleOf(ds, ds[i], x)
  {
    roles := [];
    for i := 0 to |ds|
      invariant |roles| == i && forall j :: 0 <= j < i ==> roles[j] == RoleOf(ds, ds[j], x)
    {
      var s := ds[i];
      if s.caller == x {
        roles := roles + [Outbound];
      } else if s.callee == x {
        roles := roles + [Into];
      } else {
        var down := ReachesDown(adj, Graph(ds), s.callee, x);
        roles := roles + [if down then Victim else Unexplained];
      }
    }
  }

  /** No origin when nothing slowed; a division by zero when the slowed edges did not slow at all;
      else the best-scoring service, blamed on the network iff its own spans did not slow. */
  method Attribute(p95: Percentile, pre: Samples, post: Samples, order: seq<(Service, Service)>,
                   serverPre: map<Service, seq<real>>, serverPost: map<Service, seq<real>>, floor: real)
    returns (r: Result<Option<Origin>, string>)
    ensures var ds := Degraded(p95, pre, post, order, floor);
            && (r == Ok(None) <==> ds == [])
            && (r.Err? <==> ds != [] && TotalMs(ds) == 0.0)
            && (r.Ok? && r.value.Some? ==>
                  var o := r.value.value;
                  && TotalMs(ds) != 0.0 && Attributed(ds, pre.Keys + post.Keys, o.service)
                  && (o.network <==> Slowdown(p95, serverPre, serverPost, o.service) < floor)
                  && o.listed == ds[..Min(20, |ds|)]
                  && |o.roles| == |ds| && forall i :: 0 <= i < |ds| ==> PlaysRole(ds, ds[i], o.service, o.roles[i]))
  {
    var ds := Degraded(p95, pre, post, order, floor);
    if ds == [] { return Ok(None); }
    var adj := Adjacency(Graph(ds));
    var total := TotalMs(ds);
    if total == 0.0 { return Err("ZeroDivisionError"); }
    var x := BestCandidate(ds, adj, pre.Keys + post.Keys, total);
    var own := p95(Served(serverPost, x)) - p95(Served(serverPre, x));
    assert own == Slowdown(p95, serverPre, serverPost, x);
    var roles := Roles(ds, adj, x);
    forall i | 0 <= i < |ds| ensures PlaysRole(ds, ds[i], x, roles[i]) { RoleFits(ds, ds[i], x); }
    r := Ok(Some(Origin(x, own < floor, ds[..Min(LISTED, |ds|)], roles)));
  }

  /** By how much the 95th percentile of a service's own spans rose; a side without spans counts as empty. */
  ghost function Slowdown(p95: Percentile, pre: map<Service, seq<real>>, post: map<Service, seq<real>>, x: Service): real {
    var before, after := if x in pre.Keys then pre[x] else [], if x in post.Keys then post[x] else [];
    p95(after) - p95(before)
  }

  /** What an edge has to do with the origin x: it leaves x, enters x, leads down to x, or nothing. */
  ghost predicate PlaysRole(ds: seq<Shift>, s: Shift, x: Service, role: Role) {
    match role
    case Outbound => s.caller == x
    case Into => s.callee == x && s.caller != x
    case Victim => s.caller != x && s.callee != x && LeadsTo(ds, s.callee, x)
    case Unexplained => s.caller != x && s.callee != x && !LeadsTo(ds, s.callee, x)
  }

  /** A path of slowed edges from a to b. */
  ghost predicate LeadsTo(ds: seq<Shift>, a: Service, b: Service) {
    exists p: seq<Service> :: p != [] && p[0] == a && p[|p| - 1] == b && AlongEdges(ds, p)
  }

  ghost predicate AlongEdges(ds: seq<Shift>, p: seq<Service>) {
    forall i :: 0 <= i < |p| - 1 ==> SomeEdge(ds, p[i], p[i + 1])
  }

  ghost predicate SomeEdge(ds: seq<Shift>, a: Service, b: Service) {
    exists j :: 0 <= j < |ds| && ds[j].caller == a && ds[j].callee == b
  }

  lemma {:induction false} LeadsToIff(ds: seq<Shift>, a: Service, b: Service)
    ensures Chains(Graph(ds), a, b) <==> LeadsTo(ds, a, b)
  {
    forall p: seq<Service> ensures IsPath(Graph(ds), p) <==> p != [] && AlongEdges(ds, p) { PathsAreAlong(ds, p); }
    if Chains(Graph(ds), a, b) {
      var p :| Joins(Graph(ds), p, a, b);
      assert AlongEdges(ds, p);
    }
    if LeadsTo(ds, a, b) {
      var p: seq<Service> :| p != [] && p[0] == a && p[|p| - 1] == b && AlongEdges(ds, p);
      assert Joins(Graph(ds), p, a, b);
    }
  }

  lemma {:induction false} PathsAreAlong(ds: seq<Shift>, p: seq<Service>)
    ensures IsPath(Graph(ds), p) <==> p != [] && AlongEdges(ds, p)
  {
    forall v, w ensures (v, w) in Graph(ds) <==> SomeEdge(ds, v, w) {
      if j :| 0 <= j < |ds| && ds[j].caller == v && ds[j].callee == w { assert ds[j] in ds; }
    }
  }

  lemma {:induction false} RoleFits(ds: seq<Shift>, s: Shift, x: Service)
    ensures PlaysRole(ds, s, x, RoleOf(ds, s, x))
  {
    LeadsToIff(ds, s.callee, x);
  }

  function Served(samples: map<Service, seq<real>>, x: Service): seq<real> {
    if x in samples then samples[x] else []
  }

  // ----- what the attribution means --------------------------------------------------------------------

  lemma {:induction false} CandidatesMembers(ds: seq<Shift>)
    ensures forall x :: x in Candidates(ds) <==> exists s :: s in ds && s.callee == x
  {
    if ds == [] {
    } else {
      var n := |ds| - 1;
      CandidatesMembers(ds[..n]);
      assert ds == ds[..n] + [ds[n]];
      assert ds[n] in ds;
    }
  }

  /** The slowed edges are the observed edges at or above the floor, all of them known, the
      largest shift first. */
  lemma {:induction false} DegradedAre(p95: Percentile, pre: Samples, post: Samples, order: seq<(Service, Service)>, floor: real)
    requires forall e :: e in order ==> e in post
    ensures forall s :: s in Degraded(p95, pre, post, order, floor) <==>
      var e := (s.caller, s.callee);
      s.ms >= floor && e in order && s.ms == p95(post[e]) - p95(if e in pre.Keys then pre[e] else [])
    ensures Graph(Degraded(p95, pre, post, order, floor)) <= pre.Keys + post.Keys
    ensures var ds := Degraded(p95, pre, post, order, floor); forall i, j :: 0 <= i < j < |ds| ==> ds[i].ms >= ds[j].ms
  {
    assert TotalPreorder(LargerFirst);
    SortSorts(AtLeast(p95, pre, post, order, floor), LargerFirst);
    SortMembers(AtLeast(p95, pre, post, order, floor), LargerFirst);
    AtLeastAre(p95, pre, post, order, floor);
  }

  lemma {:induction false} AtLeastAre(p95: Percentile, pre: Samples, post: Samples, order: seq<(Service, Service)>, floor: real)
    ensures forall s :: s in AtLeast(p95, pre, post, order, floor) <==>
      s.ms >= floor && (s.caller, s.callee) in order && s == ShiftOf(p95, pre, post, (s.caller, s.callee))
  {
    if order == [] {
    } else {
      AtLeastAre(p95, pre, post, order[1..], floor);
    }
  }

  ghost predicate AllAtLeast(ds: seq<Shift>, floor: real) {
    forall i :: 0 <= i < |ds| ==> ds[i].ms >= floor
  }

  /** The total is zero exactly when every listed edge slowed by nothing. */
  lemma {:induction false} TotalIsZeroIff(ds: seq<Shift>)
    requires AllAtLeast(ds, 0.0)
    ensures TotalMs(ds) >= 0.0
    ensures TotalMs(ds) == 0.0 <==> forall i :: 0 <= i < |ds| ==> ds[i].ms == 0.0
  {
    if ds == [] {
    } else {
      var rest := ds[1..];
      TotalIsZeroIff(rest);
      if TotalMs(ds) == 0.0 {
        forall i | 0 <= i < |ds| ensures ds[i].ms == 0.0 { assert i == 0 || rest[i - 1] == ds[i]; }
      } else if rest != [] && TotalMs(rest) != 0.0 {
        var i :| 0 <= i < |rest| && rest[i].ms != 0.0;
        assert ds[i + 1].ms != 0.0;
      }
    }
  }

  /** x explains every edge that slowed at all; a floor of zero lets in edges that did not. */
  ghost predicate ExplainsAll(ds: seq<Shift>, among: seq<Shift>, x: Service) {
    forall i :: 0 <= i < |among| && among[i].ms > 0.0 ==> Explains(ds, among[i], x)
  }

  /** The explained share is whole exactly when every edge that slowed is explained. */
  lemma {:induction false} WholeIff(ds: seq<Shift>, among: seq<Shift>, x: Service)
    requires AllAtLeast(among, 0.0)
    ensures ExplainedMs(ds, among, x) <= TotalMs(among)
    ensures ExplainedMs(ds, among, x) == TotalMs(among) <==> ExplainsAll(ds, among, x)
  {
    if among == [] {
    } else {
      var rest := among[1..];
      WholeIff(ds, rest, x);
      if ExplainsAll(ds, rest, x) && (among[0].ms > 0.0 ==> Explains(ds, among[0], x)) {
        forall i | 0 <= i < |among| && among[i].ms > 0.0 ensures Explains(ds, among[i], x) {
          assert i == 0 || among[i] == rest[i - 1];
        }
      } else if !ExplainsAll(ds, rest, x) {
        var i :| 0 <= i < |rest| && rest[i].ms > 0.0 && !Explains(ds, rest[i], x);
        assert among[i + 1] == rest[i];
      }
    }
  }

  lemma {:induction false} ShareIsWholeIff(ds: seq<Shift>, known: Edges, x: Service)
    requires AllAtLeast(ds, 0.0) && TotalMs(ds) != 0.0
    ensures TotalMs(ds) > 0.0
    ensures ScoreOf(ds, known, x).explained <= 1.0
    ensures ScoreOf(ds, known, x).explained == 1.0 <==> ExplainsAll(ds, ds, x)
  {
    TotalIsZeroIff(ds);
    WholeIff(ds, ds, x);
    Ratio(ExplainedMs(ds, ds, x), TotalMs(ds));
  }

  lemma {:induction false} Ratio(a: real, b: real)
    requires a <= b && b > 0.0
    ensures a / b <= 1.0 && (a / b == 1.0 <==> a == b)
  {
    var q := a / b;
    assert q * b == a;
    var d := q - 1.0;
    assert d * b == a - b;
  }

  /** If some service explains every slowed edge then so does the attributed one, and at least as
      large a share of its callers slowed. */
  lemma {:induction false} FullExplanationWins(ds: seq<Shift>, known: Edges, o: Service, x: Service)
    requires AllAtLeast(ds, 0.0) && TotalMs(ds) != 0.0
    requires Attributed(ds, known, o) && x in Candidates(ds) && ExplainsAll(ds, ds, x)
    ensures ExplainsAll(ds, ds, o) && Coverage(ds, known, o) >= Coverage(ds, known, x)
  {
    var k :| FirstBest(ds, known, Candidates(ds), k) && Candidates(ds)[k] == o;
    var j :| 0 <= j < |Candidates(ds)| && Candidates(ds)[j] == x;
    assert !Lower(ScoreOf(ds, known, o), ScoreOf(ds, known, x));
    ShareIsWholeIff(ds, known, o);
    ShareIsWholeIff(ds, known, x);
  }

  lemma {:induction false} CoverageIsWholeIff(ds: seq<Shift>, known: Edges, x: Service)
    requires Graph(ds) <= known && x in Candidates(ds)
    ensures Coverage(ds, known, x) <= 1.0
    ensures Coverage(ds, known, x) == 1.0 <==> Slowed(ds, x) == Callers(known, x)
  {
    var slowed, all := Slowed(ds, x), Callers(known, x);
    forall c | c in slowed ensures c in all {
      var s :| s in ds && s.callee == x && s.caller == c;
      assert (c, x) in Graph(ds);
    }
    CandidatesMembers(ds);
    var s :| s in ds && s.callee == x;
    assert s.caller in slowed;
    SizeOfSubset(slowed, all);
    Ratio(|slowed| as real, |all| as real);
  }

  /** Healthy callers exonerate: if no service explains a larger share than x, and none of the
      callers of x stayed healthy, then the attributed service explains as large a share and has no
      healthy caller either. */
  lemma {:induction false} HealthyCallersExonerate(ds: seq<Shift>, known: Edges, o: Service, x: Service)
    requires TotalMs(ds) != 0.0 && Graph(ds) <= known
    requires Attributed(ds, known, o) && x in Candidates(ds) && Slowed(ds, x) == Callers(known, x)
    requires forall y :: y in Candidates(ds) ==> ScoreOf(ds, known, y).explained <= ScoreOf(ds, known, x).explained
    ensures ScoreOf(ds, known, o).explained == ScoreOf(ds, known, x).explained
    ensures Slowed(ds, o) == Callers(known, o)
  {
    var k :| FirstBest(ds, known, Candidates(ds), k) && Candidates(ds)[k] == o;
    var j :| 0 <= j < |Candidates(ds)| && Candidates(ds)[j] == x;
    assert !Lower(ScoreOf(ds, known, o), ScoreOf(ds, known, x));
    CoverageIsWholeIff(ds, known, x);
    CoverageIsWholeIff(ds, known, o);
  }

  /** When all slowed edges enter one service, it is the one attributed, and it explains them all. */
  lemma {:induction false} SharedCalleeIsBlamed(ds: seq<Shift>, known: Edges, o: Service, x: Service)
    requires TotalMs(ds) != 0.0 && Attributed(ds, known, o)
    requires forall i :: 0 <= i < |ds| ==> ds[i].callee == x
    ensures o == x && ExplainsAll(ds, ds, x)
  {
    CandidatesMembers(ds);
    var k :| FirstBest(ds, known, Candidates(ds), k) && Candidates(ds)[k] == o;
    assert o in Candidates(ds);
  }

  // ----- what outscores what ------------------------------------------------------------------------------

  function CalleesOf(ds: seq<Shift>): seq<Service> {
    seq(|ds|, i requires 0 <= i < |ds| => ds[i].callee)
  }

  /** o explains more milliseconds than y; or as many, and a larger share of its callers slowed; or
      that too, and more slowed edges enter it; or all is equal. */
  ghost predicate Outscores(ds: seq<Shift>, known: Edges, o: Service, y: Service) {
    var (mine, theirs) := (ExplainedMs(ds, ds, o), ExplainedMs(ds, ds, y));
    var (slowedO, slowedY) := (|set s | s in ds && s.callee == o :: s.caller|, |set s | s in ds && s.callee == y :: s.caller|);
    var (callersO, callersY) := (|set e | e in known && e.1 == o :: e.0|, |set e | e in known && e.1 == y :: e.0|);
    || mine > theirs
    || (mine == theirs && slowedO * Max(1, callersY) > slowedY * Max(1, callersO))
    || (mine == theirs && slowedO * Max(1, callersY) == slowedY * Max(1, callersO)
        && multiset(CalleesOf(ds))[o] >= multiset(CalleesOf(ds))[y])
  }

  lemma {:induction false} InboundIsCount(ds: seq<Shift>, x: Service)
    ensures InboundCount(ds, x) == multiset(CalleesOf(ds))[x]
  {
    if ds == [] {
    } else {
      InboundIsCount(ds[1..], x);
      assert CalleesOf(ds) == [ds[0].callee] + CalleesOf(ds[1..]);
    }
  }

  lemma {:induction false} SharesCompare(a: nat, b: nat, c: nat, d: nat)
    requires b > 0 && d > 0
    ensures a as real / b as real < c as real / d as real <==> a * d < c * b
    ensures a as real / b as real == c as real / d as real <==> a * d == c * b
  {
    var x, y := a as real / b as real, c as real / d as real;
    var n := (b as real) * (d as real);
    assert x * b as real == a as real && y * d as real == c as real;
    assert x * n == (a * d) as real && y * n == (c * b) as real;
    assert (y - x) * n == y * n - x * n;
    SignOf(y - x, n);
  }

  lemma {:induction false} SignOf(x: real, n: real)
    requires n > 0.0
    ensures (x > 0.0 <==> x * n > 0.0) && (x == 0.0 <==> x * n == 0.0)
  {
    if x < 0.0 { assert (-x) * n > 0.0; }
  }

  /** o equals y in all three. */
  ghost predicate ScoresAs(ds: seq<Shift>, known: Edges, o: Service, y: Service) {
    Outscores(ds, known, o, y) && Outscores(ds, known, y, o)
  }

  /** Some slowed edge enters o before any enters y. */
  ghost predicate EnteredFirst(ds: seq<Shift>, o: Service, y: Service) {
    exists i :: 0 <= i < |ds| && ds[i].callee == o && forall j :: 0 <= j <= i ==> ds[j].callee != y
  }

  lemma {:induction false} CandidatesInOrder(ds: seq<Shift>, a: nat, b: nat)
    requires a < b < |Candidates(ds)|
    ensures EnteredFirst(ds, Candidates(ds)[a], Candidates(ds)[b])
  {
    var n := |ds| - 1;
    var front := Candidates(ds[..n]);
    CandidatesMembers(ds[..n]);
    if b < |front| {
      CandidatesInOrder(ds[..n], a, b);
      var i :| 0 <= i < n && ds[..n][i].callee == front[a] && forall j :: 0 <= j <= i ==> ds[..n][j].callee != front[b];
      assert forall j :: 0 <= j <= i ==> ds[j] == ds[..n][j];
    } else {
      assert front[a] in front;
      var s :| s in ds[..n] && s.callee == front[a];
      var i :| 0 <= i < n && ds[..n][i] == s;
      forall j | 0 <= j <= i ensures ds[j].callee != ds[n].callee { assert ds[..n][j] in ds[..n]; }
    }
  }

  /** Among equals the attributed service is entered first by the slowed edges, largest first. */
  lemma {:induction false} FirstAmongEquals(ds: seq<Shift>, known: Edges, o: Service, y: Service)
    requires TotalMs(ds) > 0.0 && Attributed(ds, known, o) && y in Candidates(ds) && y != o
    requires ScoresAs(ds, known, o, y)
    ensures EnteredFirst(ds, o, y)
  {
    var k :| FirstBest(ds, known, Candidates(ds), k) && Candidates(ds)[k] == o;
    var j :| 0 <= j < |Candidates(ds)| && Candidates(ds)[j] == y;
    InboundIsCount(ds, o);
    InboundIsCount(ds, y);
    SharesCompare(|Slowed(ds, o)|, Max(1, |Callers(known, o)|), |Slowed(ds, y)|, Max(1, |Callers(known, y)|));
    Quotients(ExplainedMs(ds, ds, o), ExplainedMs(ds, ds, y), TotalMs(ds));
    assert !Lower(ScoreOf(ds, known, y), ScoreOf(ds, known, o));
    CandidatesInOrder(ds, k, j);
  }

  /** The attributed service is outscored by no candidate. */
  lemma {:induction false} NoneOutscores(ds: seq<Shift>, known: Edges, o: Service, y: Service)
    requires TotalMs(ds) > 0.0 && Attributed(ds, known, o) && y in Candidates(ds)
    ensures Outscores(ds, known, o, y)
  {
    var k :| FirstBest(ds, known, Candidates(ds), k) && Candidates(ds)[k] == o;
    var j :| 0 <= j < |Candidates(ds)| && Candidates(ds)[j] == y;
    assert !Lower(ScoreOf(ds, known, o), ScoreOf(ds, known, y));
    InboundIsCount(ds, o);
    InboundIsCount(ds, y);
    SharesCompare(|Slowed(ds, o)|, Max(1, |Callers(known, o)|), |Slowed(ds, y)|, Max(1, |Callers(known, y)|));
    Quotients(ExplainedMs(ds, ds, o), ExplainedMs(ds, ds, y), TotalMs(ds));
  }

  lemma {:induction false} Quotients(a: real, b: real, n: real)
    requires n > 0.0
    ensures (a / n < b / n <==> a < b) && (a / n == b / n <==> a == b)
  {
    var x, y := a / n, b / n;
    assert x * n == a && y * n == b;
    assert (y - x) * n == b - a;
    SignOf(y - x, n);
  }

  // ----- when the tool divides by zero -------------------------------------------------------------------

  ghost predicate NothingRose(p95: Percentile, pre: Samples, post: Samples, order: seq<(Service, Service)>) {
    forall e :: e in order ==> ShiftOf(p95, pre, post, e).ms <= 0.0
  }

  ghost predicate SomeHeld(p95: Percentile, pre: Samples, post: Samples, order: seq<(Service, Service)>) {
    exists e :: e in order && ShiftOf(p95, pre, post, e).ms == 0.0
  }

  /** The tool fails exactly when the floor is zero, no edge rose and one did not move: a caller
      who asks for a positive floor is safe. */
  lemma {:induction false} DividesByZeroIff(
      p95: Percentile, pre: Samples, post: Samples, order: seq<(Service, Service)>, floor: real)
    requires floor >= 0.0 && forall e :: e in order ==> e in post
    ensures var ds := Degraded(p95, pre, post, order, floor);
            (ds != [] && TotalMs(ds) == 0.0) <==>
            floor == 0.0 && SomeHeld(p95, pre, post, order) && NothingRose(p95, pre, post, order)
  {
    var ds := Degraded(p95, pre, post, order, floor);
    DegradedAre(p95, pre, post, order, floor);
    forall i | 0 <= i < |ds| ensures ds[i].ms >= floor { assert ds[i] in ds; }
    TotalIsZeroIff(ds);
    if ds != [] && TotalMs(ds) == 0.0 {
      var s := ds[0];
      assert s in ds && s.ms == 0.0;
      assert ShiftOf(p95, pre, post, (s.caller, s.callee)) == s;
      forall e | e in order ensures ShiftOf(p95, pre, post, e).ms <= 0.0 {
        RisenIsDegraded(p95, pre, post, order, floor, e);
      }
    }
    if floor == 0.0 && SomeHeld(p95, pre, post, order) && NothingRose(p95, pre, post, order) {
      var e :| e in order && ShiftOf(p95, pre, post, e).ms == 0.0;
      assert ShiftOf(p95, pre, post, e) in ds;
      forall i | 0 <= i < |ds| ensures ds[i].ms == 0.0 { assert ds[i] in ds; }
    }
  }

  lemma {:induction false} RisenIsDegraded(
      p95: Percentile, pre: Samples, post: Samples, order: seq<(Service, Service)>, floor: real, e: (Service, Service))
    requires e in order && forall d :: d in order ==> d in post
    requires var ds := Degraded(p95, pre, post, order, floor); floor == 0.0 && forall i :: 0 <= i < |ds| ==> ds[i].ms == 0.0
    ensures ShiftOf(p95, pre, post, e).ms <= 0.0
  {
    var ds, s := Degraded(p95, pre, post, order, floor), ShiftOf(p95, pre, post, e);
    DegradedAre(p95, pre, post, order, floor);
    assert s.ms > 0.0 ==> s in ds;
    assert forall t :: t in ds ==> t.ms == 0.0;
  }

  /** It does happen: one edge, the same samples before and after, and a floor of zero. */
  lemma {:induction false} AZeroFloorCanDivideByZero(p95: Percentile, e: (Service, Service), xs: seq<real>)
    ensures var ds := Degraded(p95, map[e := xs], map[e := xs], [e], 0.0);
            ds != [] && TotalMs(ds) == 0.0
  {
    var m: Samples := map[e := xs];
    assert e in [e] && ShiftOf(p95, m, m, e).ms == 0.0;
    DividesByZeroIff(p95, m, m, [e], 0.0);
  }
}
