/** Trace spans and their parent pointers, which nothing guarantees to be sound: a parent
    may be missing, be the span itself, or lead round in a circle. */
module Spans {
  import opened Common

  datatype Span = Span(
    id: string,
    parent: Option<string>,
    time: int,
    service: string,
    kind: Option<string>,
    isError: bool)

  ghost predicate UniqueIds(spans: seq<Span>) {
    forall i, j :: 0 <= i < j < |spans| ==> spans[i].id != spans[j].id
  }

  function Find(spans: seq<Span>, id: string): (r: Option<Span>)
    ensures r.Some? ==> r.value in spans && r.value.id == id
    ensures r.None? ==> forall s :: s in spans ==> s.id != id
  {
    if spans == [] then None
    else if spans[0].id == id then Some(spans[0])
    else Find(spans[1..], id)
  }

  lemma {:induction false} FindUnique(spans: seq<Span>, s: Span)
    requires UniqueIds(spans) && s in spans
    ensures Find(spans, s.id) == Some(s)
  {
    var r := Find(spans, s.id);
    var i :| 0 <= i < |spans| && spans[i] == s;
    var j :| 0 <= j < |spans| && spans[j] == r.value;
  }

  /** The span's parent within this collection. */
  function Up(spans: seq<Span>, s: Span): (r: Option<Span>)
    ensures r.Some? ==> r.value in spans
  {
    if s.parent.None? then None else Find(spans, s.parent.value)
  }

  /** The span whose id s names as its parent, if there is one. */
  lemma {:induction false} UpIsTheParent(spans: seq<Span>, s: Span)
    ensures var p := Up(spans, s);
            if p.Some? then p.value in spans && s.parent == Some(p.value.id)
            else forall t :: t in spans ==> s.parent != Some(t.id)
  {}

  predicate IsRoot(spans: seq<Span>, s: Span) {
    Up(spans, s).None?
  }

  /** Following parents from s reaches a root in exactly d steps. */
  predicate Rooted(spans: seq<Span>, s: Span, d: nat)
    decreases d
  {
    var p := Up(spans, s);
    if d == 0 then p.None? else p.Some? && Rooted(spans, p.value, d - 1)
  }

  /** k steps up from s, while there is a parent. */
  function UpBy(spans: seq<Span>, s: Span, k: nat): (r: Option<Span>)
    ensures k > 0 && r.Some? ==> r.value in spans
    decreases k
  {
    if k == 0 then Some(s)
    else
      var p := Up(spans, s);
      if p.None? then None else UpBy(spans, p.value, k - 1)
  }

  ghost predicate Acyclic(spans: seq<Span>) {
    forall s, k: nat :: s in spans && k > 0 ==> UpBy(spans, s, k) != Some(s)
  }

  lemma {:induction false} DepthIsUnique(spans: seq<Span>, s: Span, d: nat, e: nat)
    requires Rooted(spans, s, d) && Rooted(spans, s, e)
    ensures d == e
    decreases d
  {
    if d > 0 && e > 0 { DepthIsUnique(spans, Up(spans, s).value, d - 1, e - 1); }
  }

  lemma {:induction false} UpByAdds(spans: seq<Span>, s: Span, j: nat, k: nat)
    ensures UpBy(spans, s, j + k)
         == if UpBy(spans, s, j).None? then None else UpBy(spans, UpBy(spans, s, j).value, k)
    decreases j
  {
    if j > 0 && Up(spans, s).Some? { UpByAdds(spans, Up(spans, s).value, j - 1, k); }
  }

  /** k steps up from depth d one stands at depth d - k, or past the root. */
  lemma {:induction false} RootedAbove(spans: seq<Span>, s: Span, d: nat, k: nat)
    requires Rooted(spans, s, d)
    ensures if k <= d then UpBy(spans, s, k).Some? && Rooted(spans, UpBy(spans, s, k).value, d - k)
            else UpBy(spans, s, k).None?
    decreases k
  {
    if k > 0 && d > 0 { RootedAbove(spans, Up(spans, s).value, d - 1, k - 1); }
  }

  /** The first n spans of the chain above s, s included. */
  function Chain(spans: seq<Span>, s: Span, n: nat): seq<Option<Span>> {
    seq(n, i requires 0 <= i < n => UpBy(spans, s, i))
  }

  lemma {:induction false} DistinctFit<T>(xs: seq<T>, all: set<T>)
    requires forall i, j :: 0 <= i < j < |xs| ==> xs[i] != xs[j]
    requires forall i :: 0 <= i < |xs| ==> xs[i] in all
    ensures |xs| <= |all|
  {
    if xs == [] {
    } else {
      var n := |xs| - 1;
      DistinctFit(xs[..n], all - {xs[n]});
    }
  }

  lemma {:induction false} SetOfSeqFits<T>(xs: seq<T>)
    ensures |set x | x in xs| <= |xs|
  {
    if xs == [] {
    } else {
      SetOfSeqFits(xs[1..]);
      assert (set x | x in xs) == {xs[0]} + (set x | x in xs[1..]);
    }
  }

  /** A root is never further away than there are spans. */
  lemma {:induction false} DepthIsBounded(spans: seq<Span>, s: Span, d: nat)
    requires s in spans && Rooted(spans, s, d)
    ensures d < |spans|
  {
    var c := Chain(spans, s, d + 1);
    var all := set x | x in spans;
    forall i | 0 <= i <= d ensures c[i].Some? && c[i].value in all && Rooted(spans, c[i].value, d - i) {
      RootedAbove(spans, s, d, i);
    }
    var xs := seq(d + 1, i requires 0 <= i <= d => c[i].value);
    forall i, j | 0 <= i < j < |xs| ensures xs[i] != xs[j] {
      if xs[i] == xs[j] { DepthIsUnique(spans, xs[i], d - i, d - j); }
    }
    DistinctFit(xs, all);
    SetOfSeqFits(spans);
  }

  /** With no cycle among the parent pointers, every span hangs from a root. */
  lemma {:induction false} AcyclicIsRooted(spans: seq<Span>, s: Span)
    requires s in spans && Acyclic(spans)
    ensures HasRoot(spans, s)
  {
    var n := |spans|;
    if k: nat :| UpBy(spans, s, k).None? {
      RunsOut(spans, s, k);
    } else {
      var xs := seq(n + 1, i requires 0 <= i <= n => UpBy(spans, s, i).value);
      var all := set x | x in spans;
      SetOfSeqFits(spans);
      forall i, j | 0 <= i < j <= n ensures xs[i] != xs[j] {
        UpByAdds(spans, s, i, j - i);
      }
      DistinctFit(xs, all);
      assert false;
    }
  }

  lemma {:induction false} RunsOut(spans: seq<Span>, s: Span, k: nat)
    requires UpBy(spans, s, k).None?
    ensures HasRoot(spans, s)
    decreases k
  {
    var p := Up(spans, s);
    if p.None? {
      assert Rooted(spans, s, 0);
    } else {
      RunsOut(spans, p.value, k - 1);
      var d: nat :| Rooted(spans, p.value, d);
      assert Rooted(spans, s, d + 1);
    }
  }

  ghost predicate HasRoot(spans: seq<Span>, s: Span) {
    exists d: nat :: Rooted(spans, s, d)
  }

  lemma {:induction false} RootedIsAcyclic(spans: seq<Span>)
    requires forall s :: s in spans ==> HasRoot(spans, s)
    ensures Acyclic(spans)
  {
    forall s, k: nat | s in spans && k > 0 ensures UpBy(spans, s, k) != Some(s) {
      var d: nat :| Rooted(spans, s, d);
      RootedAbove(spans, s, d, k);
      if k <= d && UpBy(spans, s, k) == Some(s) { DepthIsUnique(spans, s, d, d - k); }
    }
  }

  /** Every span hangs from a root exactly when the parent pointers have no cycle. */
  lemma {:induction false} AllRootedIffAcyclic(spans: seq<Span>)
    ensures (forall s :: s in spans ==> HasRoot(spans, s)) <==> Acyclic(spans)
  {
    if Acyclic(spans) {
      forall s | s in spans ensures HasRoot(spans, s) { AcyclicIsRooted(spans, s); }
    }
    if forall s :: s in spans ==> HasRoot(spans, s) { RootedIsAcyclic(spans); }
  }
}
