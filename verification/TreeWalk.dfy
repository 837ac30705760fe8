/** traces_span_tree (sentinel/tools/traces.py) on any spans at all: the recursive walk over the
    child index, within the number of nested calls the interpreter allows. */
module TreeWalk {
  import opened Common
  import opened Sorting
  import opened Spans
  import opened WalkDepth
  import SpanTree

  type Node = SpanTree.Node

  /** The spans the walk visits below s, in order. */
  function Children(spans: seq<Span>, s: Span): seq<Span> {
    Sort(SpanTree.Naming(spans, s.id), SpanTree.Before)
  }

  /** What walk(s, d) appends, or None when it needs more than `room` nested calls. */
  function TreeWithin(spans: seq<Span>, s: Span, d: nat, room: nat): Option<seq<Node>>
    decreases room, 0, 0
  {
    if room == 0 then None
    else
      var below := ForestWithin(spans, Children(spans, s), d + 1, room - 1);
      if below.None? then None else Some([SpanTree.Node(s, d)] + below.value)
  }

  function ForestWithin(spans: seq<Span>, xs: seq<Span>, d: nat, room: nat): Option<seq<Node>>
    decreases room, 1, |xs|
  {
    if xs == [] then Some([])
    else
      var first, rest := TreeWithin(spans, xs[0], d, room), ForestWithin(spans, xs[1..], d, room);
      if first.None? || rest.None? then None else Some(first.value + rest.value)
  }

  function RenderWithin(spans: seq<Span>, limit: nat): Option<seq<Node>> {
    ForestWithin(spans, SpanTree.Roots(spans), 0, limit)
  }

  // ----- the walk ------------------------------------------------------------------------------

  function After(nodes: seq<Node>, more: Option<seq<Node>>): Option<seq<Node>> {
    if more.None? then None else Some(nodes + more.value)
  }

  method Walk(ghost spans: seq<Span>, children: map<string, seq<Span>>, span: Span, depth: nat,
              nodes: seq<Node>, room: nat)
    returns (out: Option<seq<Node>>)
    requires span in spans && SpanTree.IndexOf(children, spans, spans)
    ensures out == After(nodes, TreeWithin(spans, span, depth, room))
    decreases room, 0, 0
  {
    if room == 0 { return None; }
    LookupIsNaming(spans, children, span);
    var kids := Sort(SpanTree.Lookup(children, span.id), SpanTree.Before);
    assert kids == Children(spans, span);
    ChildrenAre(spans, span);
    TreeStep(spans, span, depth, room, nodes);
    out := WalkAll(spans, children, kids, depth + 1, nodes + [SpanTree.Node(span, depth)], room - 1);
  }

  lemma {:induction false} TreeStep(spans: seq<Span>, s: Span, d: nat, room: nat, out: seq<Node>)
    requires room > 0
    ensures After(out, TreeWithin(spans, s, d, room))
         == After(out + [SpanTree.Node(s, d)], ForestWithin(spans, Children(spans, s), d + 1, room - 1))
  {
    var below := ForestWithin(spans, Children(spans, s), d + 1, room - 1);
    if below.Some? {
      assert out + ([SpanTree.Node(s, d)] + below.value) == out + [SpanTree.Node(s, d)] + below.value;
    }
  }

  /** The loop over the sorted spans of one level. */
  method WalkAll(ghost spans: seq<Span>, children: map<string, seq<Span>>, xs: seq<Span>, depth: nat,
                 nodes: seq<Node>, room: nat)
    returns (out: Option<seq<Node>>)
    requires (forall x :: x in xs ==> x in spans) && SpanTree.IndexOf(children, spans, spans)
    ensures out == After(nodes, ForestWithin(spans, xs, depth, room))
    decreases room, 1, |xs|
  {
    out := Some(nodes);
    for i := 0 to |xs|
      invariant out.Some?
      invariant After(out.value, ForestWithin(spans, xs[i..], depth, room))
             == After(nodes, ForestWithin(spans, xs, depth, room))
    {
      ForestStep(spans, xs[i..], depth, room, out.value);
      assert xs[i..][1..] == xs[i + 1..];
      out := Walk(spans, children, xs[i], depth, out.value, room);
      if out.None? { return; }
    }
    assert xs[|xs|..] == [] && out.value + [] == out.value;
  }

  lemma {:induction false} ForestStep(spans: seq<Span>, xs: seq<Span>, d: nat, room: nat, out: seq<Node>)
    requires xs != []
    ensures var first := After(out, TreeWithin(spans, xs[0], d, room));
            (After(out, ForestWithin(spans, xs, d, room))
             == if first.None? then None else After(first.value, ForestWithin(spans, xs[1..], d, room)))
  {
    var first, rest := TreeWithin(spans, xs[0], d, room), ForestWithin(spans, xs[1..], d, room);
    if first.Some? && rest.Some? {
      assert out + (first.value + rest.value) == (out + first.value) + rest.value;
    }
  }

  /** The tool. It fails, with the interpreter's recursion error, when the walk needs more nested
      calls than there are. */
  method Render(spans: seq<Span>, limit: nat) returns (r: Result<seq<Node>, string>)
    ensures r.Ok? <==> !ReachesDepth(spans, limit)
    ensures r.Ok? ==> RenderWithin(spans, limit) == Some(r.value)
    ensures r.Ok? && UniqueIds(spans) ==> r.value == SpanTree.Rendering(spans)
  {
    var children := SpanTree.ChildrenIndex(spans);
    SpanTree.RootsAreRoots(spans);
    var roots := Sort(SpanTree.Under(spans, spans, None), SpanTree.Before);
    var out := WalkAll(spans, children, roots, 0, [], limit);
    RenderFailsIff(spans, limit);
    if out.None? { return Err("RecursionError"); }
    UniqueIdsRender(spans, limit);
    assert [] + RenderWithin(spans, limit).value == RenderWithin(spans, limit).value;
    r := Ok(out.value);
  }

  lemma {:induction false} NamingMembers(spans: seq<Span>, id: string)
    ensures forall t :: t in SpanTree.Naming(spans, id) <==> t in spans && t.parent == Some(id)
  {
    if spans == [] {
    } else {
      var n := |spans| - 1;
      NamingMembers(spans[..n], id);
      assert spans == spans[..n] + [spans[n]];
    }
  }

  lemma {:induction false} ChildrenAre(spans: seq<Span>, s: Span)
    ensures forall t :: t in Children(spans, s) <==> WalkChild(spans, s, t)
  {
    NamingMembers(spans, s.id);
    SortMembers(SpanTree.Naming(spans, s.id), SpanTree.Before);
  }

  lemma {:induction false} LookupIsNaming(spans: seq<Span>, children: map<string, seq<Span>>, s: Span)
    requires s in spans && SpanTree.IndexOf(children, spans, spans)
    ensures SpanTree.Lookup(children, s.id) == SpanTree.Naming(spans, s.id)
  {
    assert SpanTree.Lookup(children, s.id) == SpanTree.NamedIn(spans, spans, s.id);
  }

  // ----- when it fails -----------------------------------------------------------------------------

  /** Nested calls of walk, the first on s. */
  ghost predicate ChainFrom(spans: seq<Span>, s: Span, calls: seq<Span>) {
    && calls != [] && calls[0] == s
    && forall i :: 0 <= i < |calls| - 1 ==> WalkChild(spans, calls[i], calls[i + 1])
  }

  ghost predicate Deeper(spans: seq<Span>, s: Span, n: nat) {
    exists calls :: ChainFrom(spans, s, calls) && |calls| > n
  }

  ghost predicate Fails(spans: seq<Span>, s: Span, d: nat, room: nat) {
    TreeWithin(spans, s, d, room).None?
  }

  ghost predicate SomeFails(spans: seq<Span>, xs: seq<Span>, d: nat, room: nat) {
    exists i :: 0 <= i < |xs| && Fails(spans, xs[i], d, room)
  }

  ghost predicate SomeDeeper(spans: seq<Span>, xs: seq<Span>, n: nat) {
    exists i :: 0 <= i < |xs| && Deeper(spans, xs[i], n)
  }

  lemma {:induction false} ForestFailsIff(spans: seq<Span>, xs: seq<Span>, d: nat, room: nat)
    ensures ForestWithin(spans, xs, d, room).None? <==> SomeFails(spans, xs, d, room)
    decreases |xs|
  {
    if xs == [] {
    } else {
      var rest := xs[1..];
      ForestFailsIff(spans, rest, d, room);
      assert forall i {:trigger xs[i]} :: 1 <= i < |xs| ==> rest[i - 1] == xs[i];
      if i :| 0 <= i < |rest| && Fails(spans, rest[i], d, room) { assert xs[i + 1] == rest[i]; }
    }
  }

  lemma {:induction false} TreeFailsIff(spans: seq<Span>, s: Span, d: nat, room: nat)
    ensures Fails(spans, s, d, room) == Deeper(spans, s, room)
    decreases room, 1
  {
    if room == 0 { ChainOfOne(spans, s); } else { TreeFailsDeep(spans, s, d, room); }
  }

  lemma {:induction false} TreeFailsDeep(spans: seq<Span>, s: Span, d: nat, room: nat)
    requires room > 0
    ensures Fails(spans, s, d, room) == Deeper(spans, s, room)
    decreases room, 0
  {
    TreeFailsBelow(spans, s, d, room);
    AllFailIff(spans, Children(spans, s), d + 1, room - 1);
    DeeperChildren(spans, s, room);
  }

  lemma {:induction false} ChainOfOne(spans: seq<Span>, s: Span)
    ensures Deeper(spans, s, 0)
  {
    assert ChainFrom(spans, s, [s]);
  }

  lemma {:induction false} DeeperChildren(spans: seq<Span>, s: Span, n: nat)
    requires n > 0
    ensures Deeper(spans, s, n) == SomeDeeper(spans, Children(spans, s), n - 1)
  {
    ChildrenAre(spans, s);
    DeeperBelow(spans, s, Children(spans, s), n);
  }

  lemma {:induction false} TreeFailsBelow(spans: seq<Span>, s: Span, d: nat, room: nat)
    requires room > 0
    ensures Fails(spans, s, d, room) == SomeFails(spans, Children(spans, s), d + 1, room - 1)
  {
    ForestFailsIff(spans, Children(spans, s), d + 1, room - 1);
  }

  lemma {:induction false} AllFailIff(spans: seq<Span>, xs: seq<Span>, d: nat, room: nat)
    ensures SomeFails(spans, xs, d, room) == SomeDeeper(spans, xs, room)
    decreases room, 2
  {
    forall i | 0 <= i < |xs| ensures Fails(spans, xs[i], d, room) == Deeper(spans, xs[i], room) {
      TreeFailsIff(spans, xs[i], d, room);
    }
  }

  lemma {:induction false} DeeperBelow(spans: seq<Span>, s: Span, kids: seq<Span>, n: nat)
    requires n > 0 && forall t :: t in kids <==> WalkChild(spans, s, t)
    ensures Deeper(spans, s, n) <==> SomeDeeper(spans, kids, n - 1)
  {
    if Deeper(spans, s, n) {
      var calls :| ChainFrom(spans, s, calls) && |calls| > n;
      assert WalkChild(spans, calls[0], calls[1]);
      assert calls[1] in kids;
      ChainTail(spans, s, calls);
      var i :| 0 <= i < |kids| && kids[i] == calls[1];
      assert Deeper(spans, kids[i], n - 1);
    }
    if i :| 0 <= i < |kids| && Deeper(spans, kids[i], n - 1) {
      var calls :| ChainFrom(spans, kids[i], calls) && |calls| > n - 1;
      ChainHead(spans, s, kids[i], calls);
    }
  }

  lemma {:induction false} ChainTail(spans: seq<Span>, s: Span, calls: seq<Span>)
    requires ChainFrom(spans, s, calls) && |calls| > 1
    ensures ChainFrom(spans, calls[1], calls[1..])
  {
    var tail := calls[1..];
    forall i | 0 <= i < |tail| - 1 ensures WalkChild(spans, tail[i], tail[i + 1]) {
      assert WalkChild(spans, calls[i + 1], calls[i + 2]);
    }
  }

  lemma {:induction false} ChainHead(spans: seq<Span>, s: Span, t: Span, calls: seq<Span>)
    requires ChainFrom(spans, t, calls) && WalkChild(spans, s, t)
    ensures ChainFrom(spans, s, [s] + calls)
  {
    var longer := [s] + calls;
    forall i | 0 <= i < |longer| - 1 ensures WalkChild(spans, longer[i], longer[i + 1]) {
      if i > 0 { assert WalkChild(spans, calls[i - 1], calls[i]); }
    }
  }

  /** The walk fails exactly when the children below some root nest deeper than the limit. */
  lemma {:induction false} RenderFailsIff(spans: seq<Span>, limit: nat)
    ensures RenderWithin(spans, limit).None? <==> ReachesDepth(spans, limit)
  {
    var roots := SpanTree.Roots(spans);
    SpanTree.RootsAreRoots(spans);
    ForestFailsIff(spans, roots, 0, limit);
    AllFailIff(spans, roots, 0, limit);
    if ReachesDepth(spans, limit) {
      var calls :| Descent(spans, calls) && |calls| > limit;
      assert ChainFrom(spans, calls[0], calls) && calls[0] in roots;
      var i :| 0 <= i < |roots| && roots[i] == calls[0];
    }
    if i :| 0 <= i < |roots| && Deeper(spans, roots[i], limit) {
      var calls :| ChainFrom(spans, roots[i], calls) && |calls| > limit;
      assert roots[i] in roots;
      assert Descent(spans, calls);
    }
  }

  // ----- what it lists ---------------------------------------------------------------------------------

  /** A chain of calls from s, starting at depth d, that ends at the node. */
  ghost predicate LeadsTo(spans: seq<Span>, s: Span, d: nat, n: Node) {
    n.depth >= d && exists calls :: ChainOf(spans, s, d, calls, n)
  }

  ghost predicate ChainOf(spans: seq<Span>, s: Span, d: nat, calls: seq<Span>, n: Node) {
    ChainFrom(spans, s, calls) && |calls| == n.depth - d + 1 && calls[|calls| - 1] == n.span
  }

  ghost predicate InTree(spans: seq<Span>, s: Span, d: nat, room: nat, n: Node) {
    TreeWithin(spans, s, d, room).Some? && n in TreeWithin(spans, s, d, room).value
  }

  ghost predicate InSomeTree(spans: seq<Span>, xs: seq<Span>, d: nat, room: nat, n: Node) {
    exists i :: 0 <= i < |xs| && InTree(spans, xs[i], d, room, n)
  }

  ghost predicate SomeLeadsTo(spans: seq<Span>, xs: seq<Span>, d: nat, n: Node) {
    exists i :: 0 <= i < |xs| && LeadsTo(spans, xs[i], d, n)
  }

  lemma {:induction false} ForestHolds(spans: seq<Span>, xs: seq<Span>, d: nat, room: nat, n: Node)
    requires ForestWithin(spans, xs, d, room).Some?
    ensures n in ForestWithin(spans, xs, d, room).value <==> InSomeTree(spans, xs, d, room, n)
    decreases |xs|
  {
    if xs == [] {
    } else {
      var rest := xs[1..];
      ForestHolds(spans, rest, d, room, n);
      assert forall i {:trigger xs[i]} :: 1 <= i < |xs| ==> rest[i - 1] == xs[i];
      assert forall i {:trigger rest[i]} :: 0 <= i < |rest| ==> rest[i] == xs[i + 1];
    }
  }

  lemma {:induction false} TreeHolds(spans: seq<Span>, s: Span, d: nat, room: nat, n: Node)
    requires TreeWithin(spans, s, d, room).Some?
    ensures InTree(spans, s, d, room, n) <==> LeadsTo(spans, s, d, n)
    decreases room, 0
  {
    var kids := Children(spans, s);
    ChildrenAre(spans, s);
    ForestHolds(spans, kids, d + 1, room - 1, n);
    AllHold(spans, kids, d + 1, room - 1, n);
    LeadsBelow(spans, s, d, kids, n);
  }

  lemma {:induction false} AllHold(spans: seq<Span>, xs: seq<Span>, d: nat, room: nat, n: Node)
    requires ForestWithin(spans, xs, d, room).Some?
    ensures InSomeTree(spans, xs, d, room, n) <==> SomeLeadsTo(spans, xs, d, n)
    decreases room, 1
  {
    ForestFailsIff(spans, xs, d, room);
    forall i | 0 <= i < |xs| ensures InTree(spans, xs[i], d, room, n) <==> LeadsTo(spans, xs[i], d, n) {
      TreeHolds(spans, xs[i], d, room, n);
    }
  }

  lemma {:induction false} LeadsBelow(spans: seq<Span>, s: Span, d: nat, kids: seq<Span>, n: Node)
    requires forall t :: t in kids <==> WalkChild(spans, s, t)
    ensures LeadsTo(spans, s, d, n) <==>
      n == SpanTree.Node(s, d) || SomeLeadsTo(spans, kids, d + 1, n)
  {
    if LeadsTo(spans, s, d, n) {
      var calls :| ChainOf(spans, s, d, calls, n);
      if |calls| == 1 {
        assert n == SpanTree.Node(s, d);
      } else {
        assert WalkChild(spans, calls[0], calls[1]);
        assert calls[1] in kids;
        ChainTail(spans, s, calls);
        assert ChainOf(spans, calls[1], d + 1, calls[1..], n);
        var i :| 0 <= i < |kids| && kids[i] == calls[1];
        assert LeadsTo(spans, kids[i], d + 1, n);
      }
    }
    if n == SpanTree.Node(s, d) { assert ChainOf(spans, s, d, [s], n); }
    if i :| 0 <= i < |kids| && LeadsTo(spans, kids[i], d + 1, n) {
      var calls :| ChainOf(spans, kids[i], d + 1, calls, n);
      assert kids[i] in kids;
      ChainHead(spans, s, kids[i], calls);
      assert ChainOf(spans, s, d, [s] + calls, n);
    }
  }

  /** Nested calls from a root that end at the node. */
  ghost predicate DescentTo(spans: seq<Span>, calls: seq<Span>, n: Node) {
    Descent(spans, calls) && |calls| == n.depth + 1 && calls[n.depth] == n.span
  }

  /** Whatever the ids and parents, a span is listed at a depth exactly when a chain of that many
      child steps leads to it from a root. */
  lemma {:induction false} RendersEveryDescent(spans: seq<Span>, limit: nat, n: Node)
    requires RenderWithin(spans, limit).Some?
    ensures n in RenderWithin(spans, limit).value <==> exists calls :: DescentTo(spans, calls, n)
  {
    var roots := SpanTree.Roots(spans);
    SpanTree.RootsAreRoots(spans);
    ForestHolds(spans, roots, 0, limit, n);
    AllHold(spans, roots, 0, limit, n);
    if calls :| DescentTo(spans, calls, n) {
      assert calls[0] in roots;
      var i :| 0 <= i < |roots| && roots[i] == calls[0];
      assert ChainOf(spans, roots[i], 0, calls, n);
      assert LeadsTo(spans, roots[i], 0, n);
    }
    if i :| 0 <= i < |roots| && LeadsTo(spans, roots[i], 0, n) {
      var calls :| ChainOf(spans, roots[i], 0, calls, n);
      assert roots[i] in roots;
      assert DescentTo(spans, calls, n);
    }
  }

  // ----- with unique ids -----------------------------------------------------------------------------------

  lemma {:induction false} UniqueChildren(spans: seq<Span>, s: Span)
    requires UniqueIds(spans) && s in spans
    ensures Children(spans, s) == SpanTree.Kids(spans, s)
  {
    SpanTree.NamingIsUnder(spans, spans, s);
  }

  lemma {:induction false} UniqueTree(spans: seq<Span>, s: Span, d: nat, room: nat)
    requires UniqueIds(spans) && SpanTree.At(spans, s, d) && TreeWithin(spans, s, d, room).Some?
    ensures TreeWithin(spans, s, d, room).value == SpanTree.Tree(spans, s, d)
    decreases room, 0, 0
  {
    UniqueChildren(spans, s);
    SpanTree.KidsAreDeeper(spans, s, d);
    UniqueForest(spans, SpanTree.Kids(spans, s), d + 1, room - 1);
  }

  lemma {:induction false} UniqueForest(spans: seq<Span>, xs: seq<Span>, d: nat, room: nat)
    requires UniqueIds(spans) && SpanTree.AllAt(spans, xs, d) && ForestWithin(spans, xs, d, room).Some?
    ensures ForestWithin(spans, xs, d, room).value == SpanTree.Forest(spans, xs, d)
    decreases room, 1, |xs|
  {
    if xs == [] {
    } else {
      UniqueTree(spans, xs[0], d, room);
      UniqueForest(spans, xs[1..], d, room);
    }
  }

  /** With unique ids the walk succeeds whenever as many calls may nest as there are spans, and
      then lists the tree of parents. */
  lemma {:induction false} UniqueIdsRender(spans: seq<Span>, limit: nat)
    ensures UniqueIds(spans) && limit >= |spans| ==> RenderWithin(spans, limit).Some?
    ensures UniqueIds(spans) && RenderWithin(spans, limit).Some? ==>
      RenderWithin(spans, limit).value == SpanTree.Rendering(spans)
  {
    SpanTree.RootsAreAtZero(spans);
    RenderFailsIff(spans, limit);
    if UniqueIds(spans) {
      UniqueIdsEnd(spans);
      EndlessIffRevisits(spans);
      assert limit >= |spans| ==> !ReachesDepth(spans, limit);
      if RenderWithin(spans, limit).Some? { UniqueForest(spans, SpanTree.Roots(spans), 0, limit); }
    }
  }
}
