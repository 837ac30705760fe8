/** traces_error_origin (sentinel/tools/traces.py): the deepest error spans with no erroring
    child, and the vote over them that names a service or a call edge. */
module ErrorOrigin {
  import opened Common
  import opened Spans

  datatype Origin =
    | Unknown
    | ServiceFault(service: string)
    | EdgeFault(caller: string, callee: string)

  datatype Report = Report(origin: Origin, frontier: seq<Span>, depth: nat, firstError: Option<int>)

  /** The service a client span calls, if it can be told. */
  type Callee = Span -> Option<string>

  // ----- depth over untrusted parents -------------------------------------------------------

  ghost function Ids(spans: seq<Span>): set<string> {
    set s | s in spans :: s.id
  }

  /** Steps up from cur, stopping at a root or at a span already passed. */
  function DepthFrom(spans: seq<Span>, cur: Span, seen: set<string>): nat
    requires cur in spans
    decreases Ids(spans) - seen
  {
    var p := Up(spans, cur);
    if p.None? || cur.id in seen then 0 else 1 + DepthFrom(spans, p.value, seen + {cur.id})
  }

  function Depth(spans: seq<Span>, s: Span): nat
    requires s in spans
  {
    DepthFrom(spans, s, {})
  }

  method MeasureDepth(spans: seq<Span>, span: Span) returns (d: nat)
    requires span in spans
    ensures d == Depth(spans, span)
  {
    d := 0;
    var cur := span;
    var seen: set<string> := {};
    while Up(spans, cur).Some? && cur.id !in seen
      invariant cur in spans && d + DepthFrom(spans, cur, seen) == Depth(spans, span)
      decreases Ids(spans) - seen
    {
      seen := seen + {cur.id};
      cur := Up(spans, cur).value;
      d := d + 1;
    }
  }

  ghost predicate DeeperThan(spans: seq<Span>, t: Span, d: int) {
    exists e: nat :: e > d && Rooted(spans, t, e)
  }

  lemma {:induction false} RootedDepthFrom(spans: seq<Span>, s: Span, d: nat, seen: set<string>)
    requires UniqueIds(spans) && s in spans && Rooted(spans, s, d)
    requires forall t :: t in spans && t.id in seen ==> DeeperThan(spans, t, d)
    ensures DepthFrom(spans, s, seen) == d
    decreases d
  {
    if s.id in seen {
      var e: nat :| e > d && Rooted(spans, s, e);
      DepthIsUnique(spans, s, d, e);
    }
    if d > 0 {
      var p := Up(spans, s).value;
      forall t | t in spans && t.id in seen + {s.id} ensures DeeperThan(spans, t, d - 1) {
        if t.id in seen {
          var e: nat :| e > d && Rooted(spans, t, e);
        } else {
          SameIdSameSpan(spans, s, t);
          assert d > d - 1 && Rooted(spans, t, d);
        }
      }
      RootedDepthFrom(spans, p, d - 1, seen + {s.id});
    }
  }

  lemma {:induction false} SameIdSameSpan(spans: seq<Span>, s: Span, t: Span)
    requires UniqueIds(spans) && s in spans && t in spans && s.id == t.id
    ensures s == t
  {
    FindUnique(spans, s);
    FindUnique(spans, t);
  }

  /** On a span whose parents reach a root, the measured depth is the distance to it. */
  lemma {:induction false} DepthIsDistance(spans: seq<Span>, s: Span, d: nat)
    requires UniqueIds(spans) && s in spans && Rooted(spans, s, d)
    ensures Depth(spans, s) == d
  {
    RootedDepthFrom(spans, s, d, {});
  }

  // ----- the error frontier -----------------------------------------------------------------

  predicate HasErrorChild(spans: seq<Span>, id: string) {
    exists c :: c in spans && c.parent == Some(id) && c.isError
  }

  function Errors(spans: seq<Span>): seq<Span> {
    if spans == [] then []
    else Errors(spans[..|spans| - 1]) + if spans[|spans| - 1].isError then [spans[|spans| - 1]] else []
  }

  function Leaves(all: seq<Span>, errors: seq<Span>): seq<Span> {
    if errors == [] then []
    else
      var last := errors[|errors| - 1];
      Leaves(all, errors[..|errors| - 1]) + if HasErrorChild(all, last.id) then [] else [last]
  }

  /** The frontier candidates: error spans with no erroring child or, when a cycle leaves none, all. */
  function Candidates(spans: seq<Span>): seq<Span> {
    var errors := Errors(spans);
    var leaves := Leaves(spans, errors);
    if leaves == [] then errors else leaves
  }

  ghost predicate Within(spans: seq<Span>, xs: seq<Span>) {
    forall x :: x in xs ==> x in spans
  }

  function AtDepth(spans: seq<Span>, xs: seq<Span>, d: nat): seq<Span>
    requires Within(spans, xs)
  {
    if xs == [] then []
    else
      var last := xs[|xs| - 1];
      AtDepth(spans, xs[..|xs| - 1], d) + if Depth(spans, last) == d then [last] else []
  }

  ghost predicate IsMaxDepth(spans: seq<Span>, xs: seq<Span>, d: nat)
    requires Within(spans, xs)
  {
    (exists x :: x in xs && Depth(spans, x) == d) && forall x :: x in xs ==> Depth(spans, x) <= d
  }

  lemma {:induction false} ErrorsMembers(spans: seq<Span>)
    ensures forall x :: x in Errors(spans) <==> x in spans && x.isError
  {
    if spans == [] {
    } else {
      var n := |spans| - 1;
      ErrorsMembers(spans[..n]);
      assert spans == spans[..n] + [spans[n]];
    }
  }

  lemma {:induction false} LeavesMembers(all: seq<Span>, errors: seq<Span>)
    ensures forall x :: x in Leaves(all, errors) <==> x in errors && !HasErrorChild(all, x.id)
  {
    if errors == [] {
    } else {
      var n := |errors| - 1;
      LeavesMembers(all, errors[..n]);
      assert errors == errors[..n] + [errors[n]];
    }
  }

  lemma {:induction false} AtDepthMembers(spans: seq<Span>, xs: seq<Span>, d: nat)
    requires Within(spans, xs)
    ensures forall x :: x in AtDepth(spans, xs, d) <==> x in xs && Depth(spans, x) == d
  {
    if xs == [] {
    } else {
      var n := |xs| - 1;
      AtDepthMembers(spans, xs[..n], d);
      assert xs == xs[..n] + [xs[n]];
    }
  }

  lemma {:induction false} CandidatesMembers(spans: seq<Span>)
    ensures Within(spans, Candidates(spans)) && Within(spans, Errors(spans))
    ensures forall x :: x in Candidates(spans) ==> x.isError
    ensures Candidates(spans) == [] <==> Errors(spans) == []
  {
    ErrorsMembers(spans);
    LeavesMembers(spans, Errors(spans));
  }

  /** A deepest error span has no erroring child: the child would be deeper still. */
  lemma {:induction false} DeepestHasNoErrorChild(spans: seq<Span>, s: Span, d: nat)
    requires UniqueIds(spans) && Acyclic(spans) && s in spans && s.isError
    requires Within(spans, Errors(spans)) && IsMaxDepth(spans, Errors(spans), d) && Depth(spans, s) == d
    ensures !HasErrorChild(spans, s.id)
  {
    ErrorsMembers(spans);
    forall c | c in spans && c.parent == Some(s.id) ensures !c.isError {
      ChildIsDeeper(spans, s, c);
      assert c.isError ==> c in Errors(spans);
    }
  }

  lemma {:induction false} ChildIsDeeper(spans: seq<Span>, s: Span, c: Span)
    requires UniqueIds(spans) && Acyclic(spans) && s in spans && c in spans && c.parent == Some(s.id)
    ensures Depth(spans, c) == Depth(spans, s) + 1
  {
    FindUnique(spans, s);
    assert Up(spans, c) == Some(s);
    AcyclicIsRooted(spans, s);
    var e: nat :| Rooted(spans, s, e);
    DepthIsDistance(spans, s, e);
    DepthIsDistance(spans, c, e + 1);
  }

  /** With acyclic parents and at least one error the fallback is never taken, and the frontier
      lies at the greatest depth of any error span, of which it misses none. */
  lemma {:induction false} FrontierIsDeepestError(spans: seq<Span>, d: nat)
    requires UniqueIds(spans) && Acyclic(spans) && Errors(spans) != []
    requires Within(spans, Errors(spans)) && IsMaxDepth(spans, Errors(spans), d)
    ensures Leaves(spans, Errors(spans)) != [] && Candidates(spans) == Leaves(spans, Errors(spans))
    ensures Within(spans, Candidates(spans)) && IsMaxDepth(spans, Candidates(spans), d)
    ensures forall x :: x in AtDepth(spans, Candidates(spans), d) <==> x in spans && x.isError && Depth(spans, x) == d
  {
    ErrorsMembers(spans);
    LeavesMembers(spans, Errors(spans));
    CandidatesMembers(spans);
    forall x | x in spans && x.isError && Depth(spans, x) == d ensures x in Leaves(spans, Errors(spans)) {
      DeepestHasNoErrorChild(spans, x, d);
    }
    AtDepthMembers(spans, Candidates(spans), d);
  }

  // ----- the vote ----------------------------------------------------------------------------

  ghost predicate HasServerError(spans: seq<Span>, service: string) {
    exists s :: s in spans && s.isError && s.kind == Some("server") && s.service == service
  }

  function ServerErrors(spans: seq<Span>): set<string> {
    set s | s in spans && s.isError && s.kind == Some("server") :: s.service
  }

  function OrUnknown(o: Option<string>): string {
    if o.Some? && o.value != "" then o.value else "unknown"
  }

  function Vote(spans: seq<Span>, calleeOf: Callee, s: Span): Origin {
    if s.kind == Some("client") then
      var callee := OrUnknown(calleeOf(s));
      if callee in ServerErrors(spans) then ServiceFault(callee) else EdgeFault(s.service, callee)
    else ServiceFault(s.service)
  }

  lemma {:induction false} EdgeVotesAreClear(spans: seq<Span>, calleeOf: Callee, xs: seq<Span>, v: Origin)
    requires v in Votes(spans, calleeOf, xs) && v.EdgeFault?
    ensures !HasServerError(spans, v.callee)
  {
    var i :| 0 <= i < |xs| && Votes(spans, calleeOf, xs)[i] == v;
    forall s | s in spans && s.isError && s.kind == Some("server") ensures s.service in ServerErrors(spans) {}
  }

  function Votes(spans: seq<Span>, calleeOf: Callee, xs: seq<Span>): seq<Origin> {
    seq(|xs|, i requires 0 <= i < |xs| => Vote(spans, calleeOf, xs[i]))
  }

  /** The distinct votes, in order of first appearance. */
  function FirstAppearances(votes: seq<Origin>): seq<Origin> {
    if votes == [] then []
    else
      var order := FirstAppearances(votes[..|votes| - 1]);
      var v := votes[|votes| - 1];
      if v in order then order else order + [v]
  }

  lemma {:induction false} AppearancesMembers(votes: seq<Origin>)
    ensures forall v :: v in FirstAppearances(votes) <==> v in votes
  {
    if votes == [] {
    } else {
      var n := |votes| - 1;
      AppearancesMembers(votes[..n]);
      assert votes == votes[..n] + [votes[n]];
    }
  }

  ghost predicate Counted(counts: map<Origin, nat>, order: seq<Origin>, votes: seq<Origin>) {
    && order == FirstAppearances(votes)
    && (forall v :: v in counts <==> v in multiset(votes))
    && forall v :: v in counts ==> counts[v] == multiset(votes)[v]
  }

  lemma {:induction false} CountOne(counts: map<Origin, nat>, order: seq<Origin>, votes: seq<Origin>, v: Origin)
    requires Counted(counts, order, votes)
    ensures Counted(counts[v := (if v in counts then counts[v] else 0) + 1],
                    if v in order then order else order + [v], votes + [v])
  {
    assert (votes + [v])[..|votes|] == votes;
    assert multiset(votes + [v]) == multiset(votes) + multiset{v};
  }

  /** Counter(...) */
  method Tally(votes: seq<Origin>) returns (counts: map<Origin, nat>, order: seq<Origin>)
    ensures Counted(counts, order, votes)
  {
    counts, order := map[], [];
    for i := 0 to |votes|
      invariant Counted(counts, order, votes[..i])
    {
      var v := votes[i];
      assert votes[..i + 1] == votes[..i] + [v];
      CountOne(counts, order, votes[..i], v);
      counts := counts[v := (if v in counts then counts[v] else 0) + 1];
      if v !in order { order := order + [v]; }
    }
    assert votes[..|votes|] == votes;
  }

  /** Counter.most_common(1): the highest count, the first seen on ties. */
  ghost predicate Wins(votes: seq<Origin>, w: Origin) {
    var order := FirstAppearances(votes);
    exists k :: 0 <= k < |order| && order[k] == w
      && (forall j :: 0 <= j < |order| ==> multiset(votes)[order[j]] <= multiset(votes)[w])
      && (forall j :: 0 <= j < k ==> multiset(votes)[order[j]] < multiset(votes)[w])
  }

  method MostCommon(votes: seq<Origin>) returns (winner: Origin)
    requires votes != []
    ensures Wins(votes, winner)
  {
    var counts, order := Tally(votes);
    ghost var m := multiset(votes);
    AppearancesMembers(votes);
    assert votes[0] in order;
    assert forall v :: v in order ==> v in counts;
    var w := 0;
    for i := 1 to |order|
      invariant 0 <= w < |order|
      invariant forall j :: 0 <= j < i ==> m[order[j]] <= m[order[w]]
      invariant forall j :: 0 <= j < w ==> m[order[j]] < m[order[w]]
    {
      assert order[i] in order && order[w] in order;
      if counts[order[i]] > counts[order[w]] { w := i; }
    }
    winner := order[w];
  }

  /** A winner is one of the votes, and none has more. */
  lemma {:induction false} WinnerHasMostVotes(votes: seq<Origin>, w: Origin)
    requires Wins(votes, w)
    ensures w in votes && forall v :: multiset(votes)[v] <= multiset(votes)[w]
  {
    var order := FirstAppearances(votes);
    AppearancesMembers(votes);
    assert w in order;
    forall v ensures multiset(votes)[v] <= multiset(votes)[w] {
      if v in votes { assert v in order; }
    }
  }

  /** A blamed service has an error span of its own; a blamed edge has an erroring client span of
      the frontier in the caller, calling the callee. */
  ghost predicate Blamed(spans: seq<Span>, calleeOf: Callee, frontier: seq<Span>, o: Origin) {
    match o
    case Unknown => true
    case ServiceFault(service) => exists s :: s in spans && s.isError && s.service == service
    case EdgeFault(caller, callee) =>
      exists s :: s in frontier && s.isError && s.kind == Some("client") && s.service == caller
                  && OrUnknown(calleeOf(s)) == callee
  }

  // ----- what the votes count -------------------------------------------------------------------

  /** A client span calling the service; "unknown" stands for a callee that cannot be told. */
  predicate Calls(calleeOf: Callee, s: Span, callee: string) {
    && s.kind == Some("client")
    && if callee == "unknown" then calleeOf(s) in {None, Some(""), Some("unknown")}
       else callee != "" && calleeOf(s) == Some(callee)
  }

  /** Does span s speak for this origin? */
  ghost predicate SpeaksFor(spans: seq<Span>, calleeOf: Callee, s: Span, o: Origin) {
    match o
    case Unknown => false
    case EdgeFault(caller, callee) =>
      s.service == caller && Calls(calleeOf, s, callee) && !HasServerError(spans, callee)
    case ServiceFault(service) =>
      || (s.kind != Some("client") && s.service == service)
      || (Calls(calleeOf, s, service) && HasServerError(spans, service))
  }

  ghost function Support(spans: seq<Span>, calleeOf: Callee, frontier: seq<Span>, o: Origin): nat {
    if frontier == [] then 0
    else
      var n := |frontier| - 1;
      Support(spans, calleeOf, frontier[..n], o) + if SpeaksFor(spans, calleeOf, frontier[n], o) then 1 else 0
  }

  lemma {:induction false} VoteSpeaks(spans: seq<Span>, calleeOf: Callee, s: Span, o: Origin)
    ensures Vote(spans, calleeOf, s) == o <==> SpeaksFor(spans, calleeOf, s, o)
  {
    if s.kind == Some("client") {
      var callee := OrUnknown(calleeOf(s));
      ServerErrorIff(spans, callee);
      CallsOnlyOne(calleeOf, s);
      assert Calls(calleeOf, s, callee);
    }
  }

  lemma {:induction false} ServerErrorIff(spans: seq<Span>, service: string)
    ensures service in ServerErrors(spans) <==> HasServerError(spans, service)
  {
    if HasServerError(spans, service) {
      var s :| s in spans && s.isError && s.kind == Some("server") && s.service == service;
      assert s.service in ServerErrors(spans);
    }
  }

  /** A client span calls exactly one callee. */
  lemma {:induction false} CallsOnlyOne(calleeOf: Callee, s: Span)
    requires s.kind == Some("client")
    ensures forall callee :: Calls(calleeOf, s, callee) <==> callee == OrUnknown(calleeOf(s))
  {}

  /** An origin has as many votes as frontier spans speak for it. */
  lemma {:induction false} VotesAreSupport(spans: seq<Span>, calleeOf: Callee, frontier: seq<Span>, o: Origin)
    ensures multiset(Votes(spans, calleeOf, frontier))[o] == Support(spans, calleeOf, frontier, o)
  {
    if frontier == [] {
    } else {
      var n := |frontier| - 1;
      VotesAreSupport(spans, calleeOf, frontier[..n], o);
      VoteSpeaks(spans, calleeOf, frontier[n], o);
      assert Votes(spans, calleeOf, frontier) == Votes(spans, calleeOf, frontier[..n]) + [Vote(spans, calleeOf, frontier[n])];
    }
  }

  /** Nothing has more support than o, and the first span to speak for it comes before the first to
      speak for any other with as much. */
  ghost predicate MostSupported(spans: seq<Span>, calleeOf: Callee, frontier: seq<Span>, o: Origin) {
    exists i :: 0 <= i < |frontier| && SpeaksFor(spans, calleeOf, frontier[i], o) && NoneAhead(spans, calleeOf, frontier, o, i)
  }

  ghost predicate NoneAhead(spans: seq<Span>, calleeOf: Callee, frontier: seq<Span>, o: Origin, i: nat) {
    forall other :: other != o ==>
      && Support(spans, calleeOf, frontier, other) <= Support(spans, calleeOf, frontier, o)
      && (Support(spans, calleeOf, frontier, other) == Support(spans, calleeOf, frontier, o) ==>
            forall j :: 0 <= j < i && j < |frontier| ==> !SpeaksFor(spans, calleeOf, frontier[j], other))
  }

  /** Where the k-th distinct vote is first cast, later ones have not been cast. */
  lemma {:induction false} FirstCast(votes: seq<Origin>, k: nat) returns (i: nat)
    requires k < |FirstAppearances(votes)|
    ensures i < |votes| && votes[i] == FirstAppearances(votes)[k]
    ensures forall l, j :: k < l < |FirstAppearances(votes)| && 0 <= j < i ==> votes[j] != FirstAppearances(votes)[l]
  {
    var n := |votes| - 1;
    var before := FirstAppearances(votes[..n]);
    AppearancesMembers(votes[..n]);
    if k < |before| {
      i := FirstCast(votes[..n], k);
      forall l, j | k < l < |FirstAppearances(votes)| && 0 <= j < i ensures votes[j] != FirstAppearances(votes)[l] {
        assert votes[..n][j] == votes[j] && votes[j] in before;
      }
    } else {
      i := n;
    }
  }

  lemma {:induction false} WinnerIsMostSupported(spans: seq<Span>, calleeOf: Callee, frontier: seq<Span>, w: Origin)
    requires Wins(Votes(spans, calleeOf, frontier), w)
    ensures MostSupported(spans, calleeOf, frontier, w)
  {
    var votes := Votes(spans, calleeOf, frontier);
    var order := FirstAppearances(votes);
    AppearancesMembers(votes);
    var k :| 0 <= k < |order| && order[k] == w
      && (forall j :: 0 <= j < |order| ==> multiset(votes)[order[j]] <= multiset(votes)[w])
      && (forall j :: 0 <= j < k ==> multiset(votes)[order[j]] < multiset(votes)[w]);
    var i := FirstCast(votes, k);
    VoteSpeaks(spans, calleeOf, frontier[i], w);
    forall other | other != w
      ensures Support(spans, calleeOf, frontier, other) <= Support(spans, calleeOf, frontier, w)
      ensures Support(spans, calleeOf, frontier, other) == Support(spans, calleeOf, frontier, w) ==>
                forall j :: 0 <= j < i && j < |frontier| ==> !SpeaksFor(spans, calleeOf, frontier[j], other)
    {
      WinnerBeats(spans, calleeOf, frontier, votes, order, k, i, other);
    }
    assert NoneAhead(spans, calleeOf, frontier, w, i);
  }

  lemma {:induction false} WinnerBeats(spans: seq<Span>, calleeOf: Callee, frontier: seq<Span>, votes: seq<Origin>,
                                       order: seq<Origin>, k: nat, i: nat, other: Origin)
    requires votes == Votes(spans, calleeOf, frontier) && order == FirstAppearances(votes) && k < |order| && i <= |votes|
    requires forall j :: 0 <= j < |order| ==> multiset(votes)[order[j]] <= multiset(votes)[order[k]]
    requires forall j :: 0 <= j < k ==> multiset(votes)[order[j]] < multiset(votes)[order[k]]
    requires forall l, j :: k < l < |order| && 0 <= j < i ==> votes[j] != order[l]
    requires other != order[k]
    ensures Support(spans, calleeOf, frontier, other) <= Support(spans, calleeOf, frontier, order[k])
    ensures Support(spans, calleeOf, frontier, other) == Support(spans, calleeOf, frontier, order[k]) ==>
              forall j :: 0 <= j < i ==> !SpeaksFor(spans, calleeOf, frontier[j], other)
  {
    AppearancesMembers(votes);
    VotesAreSupport(spans, calleeOf, frontier, other);
    VotesAreSupport(spans, calleeOf, frontier, order[k]);
    assert other in votes ==> other in order;
    forall j | 0 <= j < i ensures votes[j] == other <==> SpeaksFor(spans, calleeOf, frontier[j], other) {
      VoteSpeaks(spans, calleeOf, frontier[j], other);
    }
  }

  /** A frontier of client spans from one caller into one callee is blamed on that edge exactly when
      no server span of the callee erred. */
  lemma {:induction false} OneEdgeIsBlamedIff(
      spans: seq<Span>, calleeOf: Callee, frontier: seq<Span>, o: Origin, caller: string, callee: string)
    requires MostSupported(spans, calleeOf, frontier, o)
    requires forall i :: 0 <= i < |frontier| ==> frontier[i].service == caller && Calls(calleeOf, frontier[i], callee)
    ensures o == if HasServerError(spans, callee) then ServiceFault(callee) else EdgeFault(caller, callee)
  {}

  /** Without a client span in the frontier it is a service fault. */
  lemma {:induction false} NoClientNoEdge(spans: seq<Span>, calleeOf: Callee, frontier: seq<Span>, o: Origin)
    requires MostSupported(spans, calleeOf, frontier, o)
    requires forall i :: 0 <= i < |frontier| ==> frontier[i].kind != Some("client")
    ensures o.ServiceFault? && exists i :: 0 <= i < |frontier| && frontier[i].service == o.service
  {}

  // ----- the frontier, span by span -------------------------------------------------------------

  /** An error span none of whose children erred. */
  ghost predicate ErrorLeaf(spans: seq<Span>, s: Span) {
    s in spans && s.isError && forall i :: 0 <= i < |spans| && spans[i].parent == Some(s.id) ==> !spans[i].isError
  }

  /** The leaves, or every error span when there is no leaf. */
  ghost predicate MayLead(spans: seq<Span>, s: Span) {
    ErrorLeaf(spans, s) || (s in spans && s.isError && forall t :: t in spans ==> !ErrorLeaf(spans, t))
  }

  ghost predicate IsFrontier(spans: seq<Span>, frontier: seq<Span>, d: nat) {
    && (forall s :: s in frontier <==> s in spans && MayLead(spans, s) && Depth(spans, s) == d)
    && (forall s :: s in spans && MayLead(spans, s) ==> Depth(spans, s) <= d)
  }

  lemma {:induction false} CandidatesLead(spans: seq<Span>)
    ensures forall s :: s in Candidates(spans) <==> MayLead(spans, s)
  {
    ErrorsMembers(spans);
    LeavesMembers(spans, Errors(spans));
    forall s ensures s in Leaves(spans, Errors(spans)) <==> ErrorLeaf(spans, s) {
      assert HasErrorChild(spans, s.id) <==> exists i :: 0 <= i < |spans| && spans[i].parent == Some(s.id) && spans[i].isError;
    }
    var leaves := Leaves(spans, Errors(spans));
    assert leaves != [] ==> leaves[0] in leaves;
  }

  lemma {:induction false} SelectionIsFrontier(spans: seq<Span>, d: nat)
    requires Within(spans, Candidates(spans)) && IsMaxDepth(spans, Candidates(spans), d)
    ensures IsFrontier(spans, AtDepth(spans, Candidates(spans), d), d)
  {
    CandidatesLead(spans);
    AtDepthMembers(spans, Candidates(spans), d);
  }

  // ----- the tool -----------------------------------------------------------------------------

  /** Never blames an edge into a callee whose own server spans erred; the winner has the most
      votes of the frontier; and the frontier is the candidates at the greatest depth. */
  method LocateErrorOrigin(spans: seq<Span>, calleeOf: Callee) returns (r: Report)
    ensures Within(spans, Candidates(spans))
    ensures r.origin.Unknown? <==> Errors(spans) == []
    ensures Errors(spans) != [] ==>
      && IsMaxDepth(spans, Candidates(spans), r.depth)
      && r.frontier == AtDepth(spans, Candidates(spans), r.depth)
      && var votes := Votes(spans, calleeOf, r.frontier);
         Wins(votes, r.origin)
    ensures Errors(spans) != [] ==>
      IsFrontier(spans, r.frontier, r.depth) && MostSupported(spans, calleeOf, r.frontier, r.origin)
    ensures r.origin.EdgeFault? ==> !HasServerError(spans, r.origin.callee)
    ensures Blamed(spans, calleeOf, r.frontier, r.origin)
    ensures r.firstError.Some? <==> Errors(spans) != []
    ensures r.firstError.Some? ==> IsEarliest(Errors(spans), r.firstError.value)
  {
    CandidatesMembers(spans);
    if Errors(spans) == [] { return Report(Unknown, [], 0, None); }
    var candidates := Candidates(spans);
    var depth := MaxDepth(spans, candidates);
    var frontier := SelectDepth(spans, candidates, depth);
    FrontierIsNotEmpty(spans, candidates, depth);
    var votes := Votes(spans, calleeOf, frontier);
    var winner := MostCommon(votes);
    AtDepthMembers(spans, candidates, depth);
    WinnerNamesSomeone(spans, calleeOf, frontier, winner);
    WinnerIsMostSupported(spans, calleeOf, frontier, winner);
    SelectionIsFrontier(spans, depth);
    var first := EarliestTime(Errors(spans));
    r := Report(winner, frontier, depth, Some(first));
  }

  lemma {:induction false} FrontierIsNotEmpty(spans: seq<Span>, xs: seq<Span>, d: nat)
    requires Within(spans, xs) && IsMaxDepth(spans, xs, d)
    ensures AtDepth(spans, xs, d) != []
  {
    AtDepthMembers(spans, xs, d);
    var x :| x in xs && Depth(spans, x) == d;
    assert x in AtDepth(spans, xs, d);
  }

  lemma {:induction false} WinnerNamesSomeone(spans: seq<Span>, calleeOf: Callee, xs: seq<Span>, w: Origin)
    requires Wins(Votes(spans, calleeOf, xs), w)
    requires Within(spans, xs) && forall x :: x in xs ==> x.isError
    ensures !w.Unknown? && (w.EdgeFault? ==> !HasServerError(spans, w.callee))
    ensures Blamed(spans, calleeOf, xs, w)
  {
    WinnerHasMostVotes(Votes(spans, calleeOf, xs), w);
    var i :| 0 <= i < |xs| && Votes(spans, calleeOf, xs)[i] == w;
    assert w == Vote(spans, calleeOf, xs[i]) && xs[i] in xs;
    if w.EdgeFault? { EdgeVotesAreClear(spans, calleeOf, xs, w); }
  }

  ghost predicate IsEarliest(xs: seq<Span>, t: int) {
    (exists i :: 0 <= i < |xs| && xs[i].time == t) && forall i :: 0 <= i < |xs| ==> t <= xs[i].time
  }

  /** The time of min(errors, key=(time, span_id)). */
  method EarliestTime(xs: seq<Span>) returns (t: int)
    requires xs != []
    ensures IsEarliest(xs, t)
  {
    t := xs[0].time;
    for i := 1 to |xs|
      invariant exists j :: 0 <= j < i && xs[j].time == t
      invariant forall j :: 0 <= j < i ==> t <= xs[j].time
    {
      if xs[i].time < t { t := xs[i].time; }
    }
  }

  method MaxDepth(spans: seq<Span>, xs: seq<Span>) returns (best: nat)
    requires Within(spans, xs) && xs != []
    ensures IsMaxDepth(spans, xs, best)
  {
    best := MeasureDepth(spans, xs[0]);
    for i := 1 to |xs|
      invariant exists j :: 0 <= j < i && Depth(spans, xs[j]) == best
      invariant forall j :: 0 <= j < i ==> Depth(spans, xs[j]) <= best
    {
      var d := MeasureDepth(spans, xs[i]);
      if d > best { best := d; }
    }
  }

  method SelectDepth(spans: seq<Span>, xs: seq<Span>, depth: nat) returns (picked: seq<Span>)
    requires Within(spans, xs)
    ensures picked == AtDepth(spans, xs, depth)
  {
    picked := [];
    for i := 0 to |xs|
      invariant Within(spans, xs[..i]) && picked == AtDepth(spans, xs[..i], depth)
    {
      var now := xs[..i + 1];
      assert now[..i] == xs[..i] && now[i] == xs[i];
      var d := MeasureDepth(spans, xs[i]);
      if d == depth { picked := picked + [xs[i]]; }
    }
    assert xs[..|xs|] == xs;
  }
}
