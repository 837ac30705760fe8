/** Effect sizes over a call graph, and the keys by which the anomaly overlay sorts its services
    (sentinel/oss/topology.py). */
module RankKeys {
  import opened Common
  import opened Sorting

  datatype Family = Resource | Latency | Error

  /** Per service, the effect size of each family that has one. */
  type Effects = map<string, map<Family, real>>

  type CallList = seq<(string, string)>

  const Z_MIN: real := 3.0
  const NEAR: real := 0.05

  const SYNTHETIC_ROLES: set<string> :=
    {"load-generator", "loadgenerator", "frontend-proxy", "frontendproxy", "frontend-web"}

  function Endpoints(edges: CallList): set<string> {
    (set e | e in edges :: e.0) + (set e | e in edges :: e.1)
  }

  function Callees(edges: CallList, s: string): set<string> {
    set e | e in edges && e.0 == s :: e.1
  }

  /** xs lists the elements of s, each once. */
  ghost predicate Lists(xs: seq<string>, s: set<string>) {
    Distinct(xs) && forall x :: x in xs <==> x in s
  }

  predicate Adjacent(edges: CallList, a: string, b: string) {
    (a, b) in edges || (b, a) in edges
  }

  predicate Synthetic(s: string) {
    s in SYNTHETIC_ROLES
  }

  /** Entry roots and synthetic sources lose ties. */
  predicate Demoted(edges: CallList, s: string) {
    Synthetic(s) || forall e :: e in edges ==> e.1 != s
  }

  function Z(effects: Effects, s: string, f: Family): real {
    if s in effects && f in effects[s] then effects[s][f] else 0.0
  }

  /** max(values or [0.0]) over the families present. */
  function ZTotal(effects: Effects, s: string): real {
    if s !in effects || effects[s] == map[] then 0.0
    else
      var r, l, e := Present(effects, s, Resource), Present(effects, s, Latency), Present(effects, s, Error);
      MaxOf(r + l + e)
  }

  function Present(effects: Effects, s: string, f: Family): seq<real> {
    if s in effects && f in effects[s] then [effects[s][f]] else []
  }

  function MaxOf(xs: seq<real>): real {
    if xs == [] then 0.0 else if |xs| == 1 then xs[0] else MaxReal(xs[0], MaxOf(xs[1..]))
  }

  predicate Anomalous(effects: Effects, s: string) {
    ZTotal(effects, s) >= Z_MIN
  }

  lemma {:induction false} MaxOfBounds(xs: seq<real>)
    requires xs != []
    ensures MaxOf(xs) in xs && forall x :: x in xs ==> x <= MaxOf(xs)
  {
    if |xs| > 1 {
      MaxOfBounds(xs[1..]);
      assert xs == [xs[0]] + xs[1..];
    }
  }

  lemma {:induction false} ZTotalBounds(effects: Effects, s: string)
    ensures s in effects ==> forall f :: f in effects[s] ==> Z(effects, s, f) <= ZTotal(effects, s)
    ensures ZTotal(effects, s) > 0.0 ==> exists f :: Z(effects, s, f) == ZTotal(effects, s)
    ensures s !in effects || effects[s] == map[] ==> ZTotal(effects, s) == 0.0
    ensures s in effects && effects[s] != map[] ==> exists f :: f in effects[s] && effects[s][f] == ZTotal(effects, s)
  {
    if s in effects && effects[s] != map[] {
      var r, l, e := Present(effects, s, Resource), Present(effects, s, Latency), Present(effects, s, Error);
      var xs := r + l + e;
      var g :| g in effects[s];
      forall f | f in effects[s] ensures effects[s][f] in xs {
        match f {
          case Resource => assert effects[s][f] in r;
          case Latency => assert effects[s][f] in l;
          case Error => assert effects[s][f] in e;
        }
      }
      assert effects[s][g] in xs;
      MaxOfBounds(xs);
      var m := MaxOf(xs);
      if m in r { assert Z(effects, s, Resource) == m; }
      else if m in l { assert Z(effects, s, Latency) == m; }
      else { assert m in e && Z(effects, s, Error) == m; }
    }
  }

  // ----- sort keys ----------------------------------------------------------------------------

  /** A sort key: numbers compared left to right, then the name. */
  datatype Key = Key(nums: seq<real>, name: string)

  predicate NumsLeq(a: seq<real>, b: seq<real>, tie: bool) {
    if a == [] then b != [] || tie
    else if b == [] then false
    else if a[0] != b[0] then a[0] < b[0]
    else NumsLeq(a[1..], b[1..], tie)
  }

  predicate KeyLeq(a: Key, b: Key) {
    NumsLeq(a.nums, b.nums, TextLeq(a.name, b.name))
  }

  lemma {:induction false} NumsTotal(a: seq<real>, b: seq<real>, t: bool, u: bool)
    requires t || u
    ensures NumsLeq(a, b, t) || NumsLeq(b, a, u)
  {
    if a != [] && b != [] && a[0] == b[0] { NumsTotal(a[1..], b[1..], t, u); }
  }

  lemma {:induction false} NumsTransitive(a: seq<real>, b: seq<real>, c: seq<real>, t: bool, u: bool, v: bool)
    requires NumsLeq(a, b, t) && NumsLeq(b, c, u) && (t && u ==> v)
    ensures NumsLeq(a, c, v)
  {
    if a != [] && a[0] == b[0] == c[0] { NumsTransitive(a[1..], b[1..], c[1..], t, u, v); }
  }

  function ByKey(key: string -> Key): (string, string) -> bool {
    (a, b) => KeyLeq(key(a), key(b))
  }

  lemma {:induction false} ByKeyIsTotal(key: string -> Key)
    ensures TotalPreorder(ByKey(key))
  {
    var leq := ByKey(key);
    forall x: string, y: string ensures leq(x, y) || leq(y, x) {
      TextTotal(key(x).name, key(y).name);
      NumsTotal(key(x).nums, key(y).nums, TextLeq(key(x).name, key(y).name), TextLeq(key(y).name, key(x).name));
    }
    forall x: string, y: string, z: string | leq(x, y) && leq(y, z) ensures leq(x, z) {
      var a, b, c := key(x), key(y), key(z);
      if TextLeq(a.name, b.name) && TextLeq(b.name, c.name) { TextTransitive(a.name, b.name, c.name); }
      NumsTransitive(a.nums, b.nums, c.nums, TextLeq(a.name, b.name), TextLeq(b.name, c.name), TextLeq(a.name, c.name));
    }
  }

  /** sorted(services, key=key): a permutation whose first element no key undercuts. */
  lemma {:induction false} SortedByKey(nodes: seq<string>, s: set<string>, key: string -> Key)
    requires Lists(nodes, s)
    ensures var order := Sort(nodes, ByKey(key));
            && Lists(order, s) && SortedBy(order, ByKey(key))
            && (order == [] <==> nodes == [])
            && (order != [] ==> Lowest(key, nodes, order[0]))
  {
    var order := Sort(nodes, ByKey(key));
    ByKeyIsTotal(key);
    SortPermutes(nodes, ByKey(key));
    SortMembers(nodes, ByKey(key));
    SortSorts(nodes, ByKey(key));
    SortKeepsDistinct(nodes, ByKey(key));
    forall x | x in nodes ensures KeyLeq(key(order[0]), key(x)) {
      assert x in order;
      var i :| 0 <= i < |order| && order[i] == x;
      assert ByKey(key)(x, x);
      assert i > 0 ==> ByKey(key)(order[0], order[i]);
    }
  }

  function Flag(b: bool): real {
    if b then 0.0 else 1.0
  }

  // ----- the three regimes -----------------------------------------------------------------------

  predicate Stepped(effects: Effects, f: Family, s: string) {
    Z(effects, s, f) >= Z_MIN
  }

  function SumZ(effects: Effects, xs: seq<string>): real {
    if xs == [] then 0.0 else Z(effects, xs[0], Latency) + SumZ(effects, xs[1..])
  }

  /** The stepped services in the closed neighbourhood of s. */
  function Star(edges: CallList, effects: Effects, nodes: seq<string>, s: string): seq<string> {
    if nodes == [] then []
    else (if Stepped(effects, Latency, nodes[0]) && (nodes[0] == s || Adjacent(edges, s, nodes[0])) then [nodes[0]] else [])
         + Star(edges, effects, nodes[1..], s)
  }

  function SteppedOnly(effects: Effects, f: Family, nodes: seq<string>): seq<string> {
    if nodes == [] then []
    else (if Stepped(effects, f, nodes[0]) then [nodes[0]] else []) + SteppedOnly(effects, f, nodes[1..])
  }

  /** The share of the stepped latency mass that the neighbourhood of s accounts for. */
  function Coverage(edges: CallList, effects: Effects, nodes: seq<string>, s: string): real {
    var total := SumZ(effects, SteppedOnly(effects, Latency, nodes));
    if !Stepped(effects, Latency, s) then 0.0
    else SumZ(effects, Star(edges, effects, nodes, s)) / (if total == 0.0 then 1.0 else total)
  }

  function BestCoverage(edges: CallList, effects: Effects, nodes: seq<string>, xs: seq<string>): real {
    if xs == [] then 0.0
    else if |xs| == 1 then Coverage(edges, effects, nodes, xs[0])
    else MaxReal(Coverage(edges, effects, nodes, xs[0]), BestCoverage(edges, effects, nodes, xs[1..]))
  }

  predicate NearBest(edges: CallList, effects: Effects, nodes: seq<string>, s: string) {
    Coverage(edges, effects, nodes, s)
      >= BestCoverage(edges, effects, nodes, SteppedOnly(effects, Latency, nodes)) - NEAR
  }

  /** No callee of s stepped in errors. */
  predicate ErrorFrontier(edges: CallList, effects: Effects, s: string) {
    Stepped(effects, Error, s) && forall c :: c in Callees(edges, s) ==> !Stepped(effects, Error, c)
  }

  function QuietKey(edges: CallList, effects: Effects): string -> Key {
    s => Key([-ZTotal(effects, s), Flag(!Demoted(edges, s))], s)
  }

  function ResourceKey(effects: Effects): string -> Key {
    s => Key([-Z(effects, s, Resource), Flag(!Synthetic(s)), -ZTotal(effects, s)], s)
  }

  function LatencyKey(edges: CallList, effects: Effects, nodes: seq<string>): string -> Key {
    s => Key([Flag(Stepped(effects, Latency, s)), Flag(NearBest(edges, effects, nodes, s)), Flag(!Demoted(edges, s)),
              -Coverage(edges, effects, nodes, s), -ZTotal(effects, s)], s)
  }

  function ErrorKey(edges: CallList, effects: Effects): string -> Key {
    s => Key([Flag(Stepped(effects, Error, s)), Flag(ErrorFrontier(edges, effects, s)), Flag(!Demoted(edges, s)),
              -Z(effects, s, Error)], s)
  }

  /** max(latency, resource): the transit distress of a callee. */
  function Transit(effects: Effects, s: string): real {
    MaxReal(Z(effects, s, Latency), Z(effects, s, Resource))
  }

  predicate InTransit(edges: CallList, effects: Effects, deepest: string, c: string) {
    c in Callees(edges, deepest) && Transit(effects, c) >= Z_MIN && !Stepped(effects, Error, c)
  }

  ghost predicate WorstTransit(edges: CallList, effects: Effects, deepest: string, among: set<string>, c: string) {
    && InTransit(edges, effects, deepest, c)
    && forall d :: d in among && InTransit(edges, effects, deepest, d) ==> Transit(effects, d) <= Transit(effects, c)
  }

  datatype Regime = Quiet | Regime(family: Family)

  function KeyOf(edges: CallList, effects: Effects, nodes: seq<string>, regime: Regime): string -> Key {
    match regime
    case Quiet => QuietKey(edges, effects)
    case Regime(Resource) => ResourceKey(effects)
    case Regime(Latency) => LatencyKey(edges, effects, nodes)
    case Regime(Error) => ErrorKey(edges, effects)
  }

  /** No element of nodes has a lower key. */
  ghost predicate Lowest(key: string -> Key, nodes: seq<string>, first: string) {
    forall s :: s in nodes ==> KeyLeq(key(first), key(s))
  }

  lemma {:induction false} ThreeFlags(a: Key, b: Key)
    requires |a.nums| >= 3 && |b.nums| >= 3 && KeyLeq(a, b)
    ensures a.nums[0] <= b.nums[0]
    ensures a.nums[0] == b.nums[0] ==> a.nums[1] <= b.nums[1]
    ensures a.nums[0] == b.nums[0] && a.nums[1] == b.nums[1] ==> a.nums[2] <= b.nums[2]
  {
    var t := TextLeq(a.name, b.name);
    if a.nums[0] == b.nums[0] {
      assert NumsLeq(a.nums[1..], b.nums[1..], t);
      if a.nums[1] == b.nums[1] { assert NumsLeq(a.nums[1..][1..], b.nums[1..][1..], t); }
    }
  }

  lemma {:induction false} SteppedOnlyMembers(effects: Effects, f: Family, nodes: seq<string>)
    ensures forall s :: s in SteppedOnly(effects, f, nodes) <==> s in nodes && Stepped(effects, f, s)
  {
    if nodes == [] {
    } else {
      SteppedOnlyMembers(effects, f, nodes[1..]);
      assert nodes == [nodes[0]] + nodes[1..];
    }
  }

  lemma {:induction false} BestIsAttained(edges: CallList, effects: Effects, nodes: seq<string>, xs: seq<string>) returns (s: string)
    requires xs != []
    ensures s in xs && Coverage(edges, effects, nodes, s) == BestCoverage(edges, effects, nodes, xs)
  {
    if |xs| == 1 { s := xs[0]; }
    else {
      s := BestIsAttained(edges, effects, nodes, xs[1..]);
      if Coverage(edges, effects, nodes, xs[0]) >= Coverage(edges, effects, nodes, s) { s := xs[0]; }
    }
  }
}
