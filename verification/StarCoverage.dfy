/** Star coverage in the latency regime (sentinel/oss/topology.py): which share of the slowed mass
    lies in the neighbourhood of a service. */
module StarCoverage {
  import opened Common
  import opened Sorting
  import opened RankKeys

  /** a and b are one service, or one calls the other. */
  predicate Joined(edges: CallList, a: string, b: string) {
    a == b || (exists i :: 0 <= i < |edges| && (edges[i] == (a, b) || edges[i] == (b, a)))
  }

  /** The latency mass of the stepped services that are joined to s, or of those that are not. */
  ghost function Mass(edges: CallList, effects: Effects, nodes: seq<string>, s: string, joined: bool): real {
    if nodes == [] then 0.0
    else
      (if Z(effects, nodes[0], Latency) >= 3.0 && Joined(edges, s, nodes[0]) == joined then Z(effects, nodes[0], Latency) else 0.0)
      + Mass(edges, effects, nodes[1..], s, joined)
  }

  /** The neighbourhood of a stepped service: itself and those it calls or is called by, each once. */
  lemma {:induction false} StarIsNeighbourhood(edges: CallList, effects: Effects, nodes: seq<string>, s: string)
    ensures forall x :: x in Star(edges, effects, nodes, s) <==>
              x in nodes && Z(effects, x, Latency) >= 3.0 && Joined(edges, s, x)
    ensures Distinct(nodes) ==> Distinct(Star(edges, effects, nodes, s))
  {
    if nodes == [] {
    } else {
      StarIsNeighbourhood(edges, effects, nodes[1..], s);
      assert nodes == [nodes[0]] + nodes[1..];
      JoinedIff(edges, s, nodes[0]);
      if Distinct(nodes) { assert nodes[0] !in nodes[1..]; }
    }
  }

  lemma {:induction false} JoinedIff(edges: CallList, a: string, b: string)
    ensures Joined(edges, a, b) <==> a == b || Adjacent(edges, a, b)
  {}

  lemma {:induction false} SumCons(effects: Effects, x: string, xs: seq<string>)
    ensures SumZ(effects, [x] + xs) == Z(effects, x, Latency) + SumZ(effects, xs)
  {
    assert ([x] + xs)[1..] == xs;
  }

  lemma {:induction false} StarMass(edges: CallList, effects: Effects, nodes: seq<string>, s: string)
    ensures SumZ(effects, Star(edges, effects, nodes, s)) == Mass(edges, effects, nodes, s, true)
  {
    if nodes == [] {
    } else {
      var rest := Star(edges, effects, nodes[1..], s);
      StarMass(edges, effects, nodes[1..], s);
      JoinedIff(edges, s, nodes[0]);
      SumCons(effects, nodes[0], rest);
      assert [] + rest == rest;
    }
  }

  lemma {:induction false} TotalMass(edges: CallList, effects: Effects, nodes: seq<string>, s: string)
    ensures SumZ(effects, SteppedOnly(effects, Latency, nodes)) == AllMass(edges, effects, nodes, s)
  {
    if nodes == [] {
    } else {
      var rest := SteppedOnly(effects, Latency, nodes[1..]);
      TotalMass(edges, effects, nodes[1..], s);
      SumCons(effects, nodes[0], rest);
      assert [] + rest == rest;
    }
  }

  /** No mass is negative, and a service has its own. */
  lemma {:induction false} MassAtLeast(edges: CallList, effects: Effects, nodes: seq<string>, s: string, joined: bool)
    ensures Mass(edges, effects, nodes, s, joined) >= 0.0
    ensures joined && s in nodes && Z(effects, s, Latency) >= 3.0 ==> Mass(edges, effects, nodes, s, true) >= 3.0
  {
    if nodes != [] { MassAtLeast(edges, effects, nodes[1..], s, joined); }
  }

  /** All the stepped mass: that of a service's neighbourhood and the rest. */
  ghost function AllMass(edges: CallList, effects: Effects, nodes: seq<string>, s: string): real {
    Mass(edges, effects, nodes, s, true) + Mass(edges, effects, nodes, s, false)
  }

  /** Coverage is the share of all stepped latency mass that lies in the neighbourhood. */
  lemma {:induction false} CoverageIsShare(edges: CallList, effects: Effects, nodes: seq<string>, s: string)
    requires s in nodes && Stepped(effects, Latency, s)
    ensures AllMass(edges, effects, nodes, s) >= 3.0
    ensures Coverage(edges, effects, nodes, s) == Mass(edges, effects, nodes, s, true) / AllMass(edges, effects, nodes, s)
  {
    StarMass(edges, effects, nodes, s);
    TotalMass(edges, effects, nodes, s);
    MassAtLeast(edges, effects, nodes, s, true);
    MassAtLeast(edges, effects, nodes, s, false);
  }

  lemma {:induction false} QuotientTimes(a: real, b: real)
    requires b != 0.0
    ensures (a / b) * b == a
  {}

  lemma {:induction false} OneTotal(edges: CallList, effects: Effects, nodes: seq<string>, s: string, t: string)
    ensures AllMass(edges, effects, nodes, s) == AllMass(edges, effects, nodes, t)
  {
    TotalMass(edges, effects, nodes, s);
    TotalMass(edges, effects, nodes, t);
  }

  /** The neighbourhood of s misses at most five hundredths of all mass more than that of any other
      stepped service. */
  ghost predicate CoversNearlyMost(edges: CallList, effects: Effects, nodes: seq<string>, s: string) {
    forall t :: t in nodes && Z(effects, t, Latency) >= 3.0 ==>
      Mass(edges, effects, nodes, s, true)
        >= Mass(edges, effects, nodes, t, true) - 0.05 * AllMass(edges, effects, nodes, s)
  }

  lemma {:induction false} CoverageGap(edges: CallList, effects: Effects, nodes: seq<string>, s: string, t: string)
    requires s in nodes && Stepped(effects, Latency, s) && t in nodes && Stepped(effects, Latency, t)
    ensures Coverage(edges, effects, nodes, s) >= Coverage(edges, effects, nodes, t) - 0.05
       <==> Mass(edges, effects, nodes, s, true)
              >= Mass(edges, effects, nodes, t, true) - 0.05 * AllMass(edges, effects, nodes, s)
  {
    CoverageIsShare(edges, effects, nodes, s);
    CoverageIsShare(edges, effects, nodes, t);
    OneTotal(edges, effects, nodes, s, t);
    GapOfShares(Mass(edges, effects, nodes, s, true), Mass(edges, effects, nodes, t, true), AllMass(edges, effects, nodes, s));
  }

  lemma {:induction false} GapOfShares(m: real, n: real, all: real)
    requires all > 0.0
    ensures m / all >= n / all - 0.05 <==> m >= n - 0.05 * all
  {
    var c, d := m / all, n / all;
    QuotientTimes(m, all);
    QuotientTimes(n, all);
    Scale(c - d + 0.05, all);
    Distribute(c, d, all);
  }

  lemma {:induction false} Distribute(c: real, d: real, all: real)
    ensures (c - d + 0.05) * all == c * all - d * all + 0.05 * all
  {}

  lemma {:induction false} Scale(x: real, all: real)
    requires all > 0.0
    ensures x >= 0.0 <==> x * all >= 0.0
  {
    var y := -x;
    if x < 0.0 {
      assert y * all > 0.0;
      assert x * all == -(y * all);
    }
  }

  /** Near-best coverage, in terms of masses. */
  lemma {:induction false} NearBestIff(edges: CallList, effects: Effects, nodes: seq<string>, s: string)
    requires s in nodes && Stepped(effects, Latency, s)
    ensures NearBest(edges, effects, nodes, s) <==> CoversNearlyMost(edges, effects, nodes, s)
  {
    var xs := SteppedOnly(effects, Latency, nodes);
    SteppedOnlyMembers(effects, Latency, nodes);
    var best := BestIsAttained(edges, effects, nodes, xs);
    forall t | t in nodes && Stepped(effects, Latency, t)
      ensures Coverage(edges, effects, nodes, t) <= BestCoverage(edges, effects, nodes, xs)
      ensures Coverage(edges, effects, nodes, s) >= Coverage(edges, effects, nodes, t) - 0.05
         <==> Mass(edges, effects, nodes, s, true)
                >= Mass(edges, effects, nodes, t, true) - 0.05 * AllMass(edges, effects, nodes, s)
    {
      BestBounds(edges, effects, nodes, xs, t);
      CoverageGap(edges, effects, nodes, s, t);
    }
  }

  lemma {:induction false} BestBounds(edges: CallList, effects: Effects, nodes: seq<string>, xs: seq<string>, t: string)
    requires t in xs
    ensures Coverage(edges, effects, nodes, t) <= BestCoverage(edges, effects, nodes, xs)
  {
    if |xs| > 1 && t in xs[1..] { BestBounds(edges, effects, nodes, xs[1..], t); }
  }

  /** The centre of a star: joined to every stepped service, where every other stepped service leaves
      out more than five hundredths of the mass. */
  ghost predicate Centre(edges: CallList, effects: Effects, nodes: seq<string>, c: string) {
    && c in nodes && Z(effects, c, Latency) >= 3.0
    && (forall t :: t in nodes && Z(effects, t, Latency) >= 3.0 ==> Joined(edges, c, t))
    && forall t :: t in nodes && Z(effects, t, Latency) >= 3.0 && t != c ==>
         Mass(edges, effects, nodes, t, false) > 0.05 * AllMass(edges, effects, nodes, c)
  }

  lemma {:induction false} CentreMissesNothing(edges: CallList, effects: Effects, nodes: seq<string>, c: string)
    requires forall t :: t in nodes && Z(effects, t, Latency) >= 3.0 ==> Joined(edges, c, t)
    ensures Mass(edges, effects, nodes, c, false) == 0.0
  {
    if nodes != [] { CentreMissesNothing(edges, effects, nodes[1..], c); }
  }

  lemma {:induction false} SharesCompare(edges: CallList, effects: Effects, nodes: seq<string>, s: string, t: string)
    requires s in nodes && Stepped(effects, Latency, s) && t in nodes && Stepped(effects, Latency, t)
    ensures var c, d := Coverage(edges, effects, nodes, s), Coverage(edges, effects, nodes, t);
            var m, n := Mass(edges, effects, nodes, s, true), Mass(edges, effects, nodes, t, true);
            (c > d <==> m > n) && (c == d <==> m == n)
  {
    CoverageIsShare(edges, effects, nodes, s);
    CoverageIsShare(edges, effects, nodes, t);
    OneTotal(edges, effects, nodes, s, t);
    QuotientsCompare(Mass(edges, effects, nodes, s, true), Mass(edges, effects, nodes, t, true), AllMass(edges, effects, nodes, s));
  }

  lemma {:induction false} QuotientsCompare(m: real, n: real, all: real)
    requires all > 0.0
    ensures (m / all > n / all <==> m > n) && (m / all == n / all <==> m == n)
  {
    var c, d := m / all, n / all;
    QuotientTimes(m, all);
    QuotientTimes(n, all);
    Scale(c - d, all);
    Scale(d - c, all);
    assert (c - d) * all == m - n && (d - c) * all == n - m;
  }
}
