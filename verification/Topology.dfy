/** Searches over the caller -> callee graph (sentinel/tools/topology.py): transitive reach
    in either direction, and the shortest call path between two services. Sets are
    iterated in any order; the source's sorted order is one of them. */
module Topology {
  import opened Common

  type Service = string

  type Edges = set<(Service, Service)>

  // ----- what the searches are about ------------------------------------------------------

  ghost predicate IsPath(edges: Edges, p: seq<Service>) {
    p != [] && forall i :: 0 <= i < |p| - 1 ==> (p[i], p[i + 1]) in edges
  }

  ghost predicate Joins(edges: Edges, p: seq<Service>, a: Service, b: Service) {
    IsPath(edges, p) && p[0] == a && p[|p| - 1] == b
  }

  /** b can be called, transitively, on behalf of a. */
  ghost predicate Reaches(edges: Edges, a: Service, b: Service) {
    exists p :: Joins(edges, p, a, b) && |p| >= 2
  }

  function Successors(edges: Edges, v: Service): set<Service> {
    set e | e in edges && e.0 == v :: e.1
  }

  function Flip(edges: Edges): Edges {
    set e | e in edges :: (e.1, e.0)
  }

  function Nodes(edges: Edges): set<Service> {
    (set e | e in edges :: e.0) + (set e | e in edges :: e.1)
  }

  function Reversed<T>(s: seq<T>): (r: seq<T>)
    ensures |r| == |s|
    ensures forall i :: 0 <= i < |s| ==> r[i] == s[|s| - 1 - i]
  {
    seq(|s|, i requires 0 <= i < |s| => s[|s| - 1 - i])
  }

  function Adjacent(adj: map<Service, set<Service>>, v: Service): set<Service> {
    if v in adj then adj[v] else {}
  }

  /** The dictionary of neighbours both searches build first. */
  method Adjacency(edges: Edges) returns (adj: map<Service, set<Service>>)
    ensures forall v :: Adjacent(adj, v) == Successors(edges, v)
  {
    adj := map[];
    var rest := edges;
    while rest != {}
      invariant rest <= edges
      invariant forall v :: Adjacent(adj, v) == Successors(edges - rest, v)
    {
      var e :| e in rest;
      ghost var before := edges - rest;
      rest := rest - {e};
      adj := adj[e.0 := Adjacent(adj, e.0) + {e.1}];
      assert edges - rest == before + {e};
      forall v ensures Adjacent(adj, v) == Successors(edges - rest, v) {
        SuccessorsOfOneMore(before, e, v);
      }
    }
    assert edges - rest == edges;
  }

  lemma SuccessorsOfOneMore(edges: Edges, e: (Service, Service), v: Service)
    ensures Successors(edges + {e}, v) == if e.0 == v then Successors(edges, v) + {e.1} else Successors(edges, v)
  {
    forall w | w in Successors(edges, v) + (if e.0 == v then {e.1} else {}) ensures w in Successors(edges + {e}, v) {
      assert (v, w) in edges + {e};
    }
  }

  // ----- transitive reach -------------------------------------------------------------------

  method Reachable(edges: Edges, start: Service, reverse: bool) returns (found: set<Service>)
    ensures forall v :: v in found <==> v != start && Reaches(if reverse then Flip(edges) else edges, start, v)
  {
    var directed := if reverse then Flip(edges) else edges;
    var adj := Adjacency(directed);
    var seen: set<Service> := {};
    var queue := [start];
    while queue != []
      invariant seen <= Nodes(directed)
      invariant forall v :: v in seen ==> Reaches(directed, start, v)
      invariant forall v :: v in queue ==> v in seen || v == start
      invariant forall v :: v in seen || v == start ==> v in queue || Successors(directed, v) <= seen
      decreases Nodes(directed) - seen, |queue|
    {
      var node := queue[0];
      ghost var popped := queue;
      ghost var seen0 := seen;
      queue := queue[1..];
      assert popped == [node] + queue;
      var todo := Adjacent(adj, node);
      while todo != {}
        invariant seen0 <= seen <= Nodes(directed) && todo <= Successors(directed, node)
        invariant forall v :: v in seen ==> Reaches(directed, start, v)
        invariant forall v :: v in queue ==> v in seen || v == start
        invariant forall v :: v in seen || v == start ==> v == node || v in queue || Successors(directed, v) <= seen
        invariant Successors(directed, node) - todo <= seen
        invariant seen == seen0 ==> queue == popped[1..]
        decreases todo
      {
        var nxt :| nxt in todo;
        todo := todo - {nxt};
        if nxt !in seen {
          OneStepFurther(directed, start, node, nxt);
          seen := seen + {nxt};
          queue := queue + [nxt];
        }
      }
    }
    ClosedUnderReach(directed, start, seen);
    found := seen - {start};
  }

  lemma OneStepFurther(edges: Edges, a: Service, v: Service, w: Service)
    requires v == a || Reaches(edges, a, v)
    requires w in Successors(edges, v)
    ensures Reaches(edges, a, w) && w in Nodes(edges)
  {
    assert (v, w) in edges;
    if v == a {
      assert Joins(edges, [a, w], a, w);
    } else {
      var p :| Joins(edges, p, a, v) && |p| >= 2;
      assert Joins(edges, p + [w], a, w);
    }
  }

  lemma ClosedUnderReach(edges: Edges, a: Service, seen: set<Service>)
    requires forall v :: v in seen || v == a ==> Successors(edges, v) <= seen
    ensures forall v :: Reaches(edges, a, v) ==> v in seen
  {
    forall p, v | Joins(edges, p, a, v) && |p| >= 2 ensures v in seen {
      PathStaysInside(edges, p, seen, |p| - 1);
    }
  }

  lemma {:induction false} PathStaysInside(edges: Edges, p: seq<Service>, seen: set<Service>, k: nat)
    requires IsPath(edges, p) && 1 <= k < |p|
    requires forall v :: v in seen || v == p[0] ==> Successors(edges, v) <= seen
    ensures p[k] in seen
  {
    if k > 1 { PathStaysInside(edges, p, seen, k - 1); }
    assert p[k] in Successors(edges, p[k - 1]) by { assert (p[k - 1], p[k - 1 + 1]) in edges; }
  }

  lemma FlipPath(edges: Edges, p: seq<Service>, a: Service, b: Service)
    requires Joins(edges, p, a, b)
    ensures Joins(Flip(edges), Reversed(p), b, a)
  {
    var r := Reversed(p);
    forall i | 0 <= i < |r| - 1 ensures (r[i], r[i + 1]) in Flip(edges) {
      var j := |p| - 2 - i;
      assert (p[j], p[j + 1]) in edges;
    }
  }

  /** Upstream and downstream are one relation read in two directions. */
  lemma ReachIsDual(edges: Edges, a: Service, b: Service)
    ensures Reaches(Flip(edges), a, b) <==> Reaches(edges, b, a)
  {
    if Reaches(edges, b, a) {
      var p :| Joins(edges, p, b, a) && |p| >= 2;
      FlipPath(edges, p, b, a);
    }
    if Reaches(Flip(edges), a, b) {
      var p :| Joins(Flip(edges), p, a, b) && |p| >= 2;
      FlipPath(Flip(edges), p, a, b);
      assert Flip(Flip(edges)) == edges by {
        forall e | e in edges ensures e in Flip(Flip(edges)) { assert (e.1, e.0) in Flip(edges); }
      }
    }
  }

  /** topology_blast_radius: everything that can affect, or be affected by, a service. */
  method BlastRadius(edges: Edges, service: Service) returns (upstream: set<Service>, downstream: set<Service>)
    ensures forall v :: v in upstream <==> v != service && Reaches(edges, v, service)
    ensures forall v :: v in downstream <==> v != service && Reaches(edges, service, v)
  {
    upstream := Reachable(edges, service, true);
    downstream := Reachable(edges, service, false);
    forall v { ReachIsDual(edges, service, v); }
  }

  // ----- shortest path -----------------------------------------------------------------------

  /** prev records, for every discovered service, a predecessor one step nearer to src. */
  ghost predicate SearchTree(edges: Edges, src: Service, prev: map<Service, Option<Service>>, dist: map<Service, nat>) {
    && prev.Keys == dist.Keys && src in prev && prev[src] == None && dist[src] == 0
    && forall v :: v in prev && v != src ==>
         prev[v].Some? && prev[v].value in prev && (prev[v].value, v) in edges && dist[v] == dist[prev[v].value] + 1
  }

  /** All successors of v are discovered, at most one step further than v. */
  ghost predicate Expanded(edges: Edges, dist: map<Service, nat>, v: Service) {
    v in dist && forall w :: w in Successors(edges, v) ==> w in dist && dist[w] <= dist[v] + 1
  }

  /** Queue distances never fall, span at most one step, and are never below a finished one. */
  ghost predicate Layered(dist: map<Service, nat>, finished: set<Service>, queue: seq<Service>) {
    && (forall v :: v in queue ==> v in dist)
    && (forall v :: v in dist ==> v in finished || v in queue)
    && (forall i, j :: 0 <= i < j < |queue| ==> dist[queue[i]] <= dist[queue[j]] <= dist[queue[0]] + 1)
    && finished <= dist.Keys
    && (forall v, i :: v in finished && 0 <= i < |queue| ==> dist[v] <= dist[queue[i]])
  }

  /** What the search maintains, between iterations. */
  ghost predicate Searching(edges: Edges, src: Service, prev: map<Service, Option<Service>>,
                            dist: map<Service, nat>, finished: set<Service>, queue: seq<Service>) {
    && SearchTree(edges, src, prev, dist) && Layered(dist, finished, queue)
    && prev.Keys <= Nodes(edges) + {src}
    && forall v :: v in finished ==> Expanded(edges, dist, v)
  }

  method ShortestPath(edges: Edges, src: Service, dst: Service) returns (path: seq<Service>)
    ensures path == [] <==> forall p :: !Joins(edges, p, src, dst)
    ensures path != [] ==> Joins(edges, path, src, dst)
    ensures path != [] ==> forall p :: Joins(edges, p, src, dst) ==> |path| <= |p|
  {
    var prev;
    ghost var dist, finished, queue;
    prev, dist, finished, queue := Search(edges, src, dst);
    if dst !in prev {
      NeverDiscovered(edges, src, dst, prev, dist, finished);
      return [];
    }
    NothingShorter(edges, src, dst, prev, dist, finished, queue);
    path := WalkBack(edges, src, dst, prev, dist);
  }

  /** The search loop: it ends with dst at the head of the queue, or with nothing left to visit. */
  method Search(edges: Edges, src: Service, dst: Service)
    returns (prev: map<Service, Option<Service>>, ghost dist: map<Service, nat>,
             ghost finished: set<Service>, ghost left: seq<Service>)
    ensures Searching(edges, src, prev, dist, finished, left) && dst !in finished
    ensures if dst in prev then left != [] && left[0] == dst else left == []
  {
    var adj := Adjacency(edges);
    prev, dist, finished := map[src := None], map[src := 0], {};
    var queue := [src];
    StartSearch(edges, src);
    while queue != []
      invariant Searching(edges, src, prev, dist, finished, queue) && dst !in finished
      decreases |(Nodes(edges) + {src}) - prev.Keys|, |queue|
    {
      var node := queue[0];
      if node == dst { break; }
      ghost var known := prev.Keys;
      prev, dist, queue := Expand(edges, src, adj, node, prev, dist, finished, queue);
      finished := finished + {node};
      FewerLeft(Nodes(edges) + {src}, known, prev.Keys);
    }
    left := queue;
  }

  lemma FewerLeft(all: set<Service>, known: set<Service>, more: set<Service>)
    requires known <= more <= all
    ensures |all - more| <= |all - known|
    ensures |all - more| == |all - known| ==> known == more
  {
    assert all - known == (all - more) + (more - known);
  }

  lemma NeverDiscovered(edges: Edges, src: Service, dst: Service, prev: map<Service, Option<Service>>,
                        dist: map<Service, nat>, finished: set<Service>)
    requires Searching(edges, src, prev, dist, finished, []) && dst !in prev
    ensures forall p :: !Joins(edges, p, src, dst)
  {
    forall p ensures !Joins(edges, p, src, dst) {
      if Joins(edges, p, src, dst) { PathIsDiscovered(edges, p, dist, finished, |p| - 1); }
    }
  }

  lemma NothingShorter(edges: Edges, src: Service, dst: Service, prev: map<Service, Option<Service>>,
                       dist: map<Service, nat>, finished: set<Service>, queue: seq<Service>)
    requires Searching(edges, src, prev, dist, finished, queue)
    requires dst in prev && dst !in finished && queue != [] && queue[0] == dst
    ensures forall p :: Joins(edges, p, src, dst) ==> dist[dst] + 1 <= |p|
  {
    forall p | Joins(edges, p, src, dst) ensures dist[dst] + 1 <= |p| {
      NoShorterPath(edges, p, dist, finished, dst);
    }
  }

  /** One iteration of the search: pop the head and discover its successors. */
  method Expand(edges: Edges, src: Service, adj: map<Service, set<Service>>, node: Service,
                prev0: map<Service, Option<Service>>, ghost dist0: map<Service, nat>,
                ghost finished: set<Service>, queue0: seq<Service>)
    returns (prev: map<Service, Option<Service>>, ghost dist: map<Service, nat>, queue: seq<Service>)
    requires forall v :: Adjacent(adj, v) == Successors(edges, v)
    requires queue0 != [] && node == queue0[0]
    requires Searching(edges, src, prev0, dist0, finished, queue0)
    ensures Searching(edges, src, prev, dist, finished + {node}, queue)
    ensures prev0.Keys <= prev.Keys
    ensures prev.Keys == prev0.Keys ==> |queue| < |queue0|
  {
    prev, dist, queue := prev0, dist0, queue0[1..];
    PopHead(edges, src, prev, dist, finished, queue0);
    var todo := Adjacent(adj, node);
    while todo != {}
      invariant todo <= Successors(edges, node)
      invariant Popped(edges, src, prev, dist, finished, node, queue)
      invariant prev0.Keys <= prev.Keys
      invariant forall w :: w in Successors(edges, node) - todo ==> w in dist && dist[w] <= dist[node] + 1
      invariant prev.Keys == prev0.Keys ==> queue == queue0[1..]
      decreases todo
    {
      var nxt :| nxt in todo;
      todo := todo - {nxt};
      if nxt !in prev {
        DiscoverTree(edges, src, prev, dist, node, nxt);
        DiscoverLayer(edges, dist, finished, node, queue, nxt);
        prev := prev[nxt := Some(node)];
        dist := dist[nxt := dist[node] + 1];
        queue := queue + [nxt];
      } else {
        DiscoveredIsNear(dist, finished, node, queue, nxt);
      }
    }
    FinishHead(edges, src, prev, dist, finished, node, queue);
  }

  lemma PopHead(edges: Edges, src: Service, prev: map<Service, Option<Service>>, dist: map<Service, nat>,
                finished: set<Service>, queue: seq<Service>)
    requires Searching(edges, src, prev, dist, finished, queue) && queue != []
    ensures Popped(edges, src, prev, dist, finished, queue[0], queue[1..])
  {
    assert queue == [queue[0]] + queue[1..];
  }

  lemma FinishHead(edges: Edges, src: Service, prev: map<Service, Option<Service>>, dist: map<Service, nat>,
                   finished: set<Service>, node: Service, queue: seq<Service>)
    requires Popped(edges, src, prev, dist, finished, node, queue) && Expanded(edges, dist, node)
    ensures Searching(edges, src, prev, dist, finished + {node}, queue)
  {
    assert forall i :: 0 <= i < |queue| ==> queue[i] in queue;
  }

  lemma StartSearch(edges: Edges, src: Service)
    ensures Searching(edges, src, map[src := None], map[src := 0], {}, [src])
  {}

  /** While node's successors are being discovered: node is off the queue but not finished. */
  ghost predicate Popped(edges: Edges, src: Service, prev: map<Service, Option<Service>>,
                         dist: map<Service, nat>, finished: set<Service>, node: Service, queue: seq<Service>) {
    && SearchTree(edges, src, prev, dist)
    && prev.Keys <= Nodes(edges) + {src}
    && PoppedLayer(dist, finished, node, queue)
    && forall v :: v in finished ==> Expanded(edges, dist, v)
  }

  ghost predicate PoppedLayer(dist: map<Service, nat>, finished: set<Service>, node: Service, queue: seq<Service>) {
    && node in dist && finished <= dist.Keys
    && (forall v :: v in queue ==> v in dist)
    && (forall v :: v in dist ==> v in finished || v == node || v in queue)
    && (forall i, j :: 0 <= i < j < |queue| ==> dist[queue[i]] <= dist[queue[j]])
    && (forall i :: 0 <= i < |queue| ==> dist[node] <= dist[queue[i]] <= dist[node] + 1)
    && (forall v :: v in finished ==> dist[v] <= dist[node])
  }

  lemma DiscoverTree(edges: Edges, src: Service, prev: map<Service, Option<Service>>, dist: map<Service, nat>,
                     node: Service, nxt: Service)
    requires SearchTree(edges, src, prev, dist)
    requires node in prev && nxt !in prev && nxt in Successors(edges, node)
    ensures SearchTree(edges, src, prev[nxt := Some(node)], dist[nxt := dist[node] + 1])
    ensures nxt in Nodes(edges)
  {
    assert (node, nxt) in edges;
  }

  lemma DiscoverLayer(edges: Edges, dist: map<Service, nat>, finished: set<Service>, node: Service,
                      queue: seq<Service>, nxt: Service)
    requires PoppedLayer(dist, finished, node, queue) && nxt !in dist
    requires forall v :: v in finished ==> Expanded(edges, dist, v)
    ensures PoppedLayer(dist[nxt := dist[node] + 1], finished, node, queue + [nxt])
    ensures forall v :: v in finished ==> Expanded(edges, dist[nxt := dist[node] + 1], v)
  {
    var q := queue + [nxt];
    forall v | v in queue ensures v in q {
      var i :| 0 <= i < |queue| && queue[i] == v;
      assert q[i] == v;
    }
    assert q[|queue|] == nxt;
    forall i | 0 <= i < |queue| ensures q[i] == queue[i] && q[i] in queue {}
  }

  lemma DiscoveredIsNear(dist: map<Service, nat>, finished: set<Service>, node: Service, queue: seq<Service>, w: Service)
    requires PoppedLayer(dist, finished, node, queue) && w in dist
    ensures dist[w] <= dist[node] + 1
  {
    if w in queue {
      var i :| 0 <= i < |queue| && queue[i] == w;
    }
  }

  /** On a path from src, as long as everything met is finished, distances bound positions. */
  lemma {:induction false} PathIsDiscovered(edges: Edges, p: seq<Service>, dist: map<Service, nat>, finished: set<Service>, k: nat)
    requires IsPath(edges, p) && k < |p|
    requires p[0] in dist && dist[p[0]] == 0
    requires forall v :: v in finished ==> Expanded(edges, dist, v)
    requires forall v :: v in dist && dist[v] < k ==> v in finished
    ensures p[k] in dist && dist[p[k]] <= k
  {
    if k == 0 {
    } else {
      PathIsDiscovered(edges, p, dist, finished, k - 1);
      assert (p[k - 1], p[k - 1 + 1]) in edges;
      assert p[k] in Successors(edges, p[k - 1]);
    }
  }

  lemma {:induction false} NoShorterPath(edges: Edges, p: seq<Service>, dist: map<Service, nat>, finished: set<Service>, dst: Service)
    requires IsPath(edges, p) && p[|p| - 1] == dst && dst in dist
    requires p[0] in dist && dist[p[0]] == 0
    requires forall v :: v in finished ==> Expanded(edges, dist, v)
    requires forall v :: v in dist && dist[v] < dist[dst] ==> v in finished
    ensures dist[dst] <= |p| - 1
  {
    if |p| - 1 < dist[dst] { PathIsDiscovered(edges, p, dist, finished, |p| - 1); }
  }

  method WalkBack(edges: Edges, src: Service, dst: Service, prev: map<Service, Option<Service>>, ghost dist: map<Service, nat>)
    returns (path: seq<Service>)
    requires SearchTree(edges, src, prev, dist) && dst in prev
    ensures Joins(edges, path, src, dst) && |path| == dist[dst] + 1
  {
    var back := [dst];
    var cur := dst;
    while prev[cur] != None
      invariant cur in prev && back != [] && back[|back| - 1] == cur && back[0] == dst
      invariant forall i :: 0 <= i < |back| - 1 ==> (back[i + 1], back[i]) in edges
      invariant |back| == dist[dst] - dist[cur] + 1
      decreases dist[cur]
    {
      cur := prev[cur].value;
      back := back + [cur];
    }
    path := Reversed(back);
    forall i | 0 <= i < |path| - 1 ensures (path[i], path[i + 1]) in edges {
      var j := |back| - 2 - i;
      assert (back[j + 1], back[j]) in edges;
    }
  }
}
