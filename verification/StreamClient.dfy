/** The reconnecting stream client (frontend/src/livelab/api.ts) against what the server
    streams (sentinel/api/livelab/router.py): each connection resumes after the last
    sequence number seen, may be served from the ring or from the journal file, and may
    drop at any frame. */
module StreamClient {
  import opened Common
  import opened Frames
  import EventBus
  import RunView

  /** Where a connection is served from: the live bus (joined after n frames), a finished
      replay's ring, or the journal on disk. */
  datatype Source = Live(capacity: nat, joinedAfter: nat) | Ring(capacity: nat) | Disk

  /** A connection, and how many frames it delivers before it drops. */
  datatype Connection = Connection(source: Source, deliveries: nat)

  /** The journal position a connection streams from. */
  function StreamsFrom(total: nat, source: Source, after: nat): nat {
    match source
    case Live(capacity, n) => EventBus.JoinsAt(Min(n, total), capacity, after)
    case Ring(capacity) => EventBus.JoinsAt(total, capacity, after)
    case Disk => Min(total, after)
  }

  function Delivers(journal: seq<Frame>, c: Connection, after: nat): seq<Frame> {
    var stream := journal[StreamsFrom(|journal|, c.source, after)..];
    stream[..Min(c.deliveries, |stream|)]
  }

  /** lastSeq after handling these messages. */
  function LastSeen(after: nat, frames: seq<Frame>): nat {
    if frames == [] then after
    else Max(LastSeen(after, frames[..|frames| - 1]), frames[|frames| - 1].seqNo)
  }

  /** Everything a client is handed over a series of connections. */
  function Session(journal: seq<Frame>, cs: seq<Connection>, after: nat): seq<Frame>
    decreases |cs|
  {
    if cs == [] then []
    else
      var d := Delivers(journal, cs[0], after);
      d + Session(journal, cs[1..], LastSeen(after, d))
  }

  function Resume(journal: seq<Frame>, cs: seq<Connection>, after: nat): nat
    decreases |cs|
  {
    if cs == [] then after
    else Resume(journal, cs[1..], LastSeen(after, Delivers(journal, cs[0], after)))
  }

  /** No connection that delivers anything was served by a ring that had already dropped a
      frame the client still lacked. */
  predicate NoOverflow(journal: seq<Frame>, cs: seq<Connection>, after: nat)
    decreases |cs|
  {
    cs != [] ==>
    var d := Delivers(journal, cs[0], after);
    && (d == [] || !Overflows(|journal|, cs[0].source, after))
    && NoOverflow(journal, cs[1..], LastSeen(after, d))
  }

  /** The ring behind this connection no longer holds frame after + 1. */
  predicate Overflows(total: nat, source: Source, after: nat) {
    match source
    case Live(capacity, n) => Min(n, total) - after > capacity
    case Ring(capacity) => total - after > capacity
    case Disk => false
  }

  /** A live connection cannot have joined before frames the client has already seen. */
  predicate Causal(journal: seq<Frame>, cs: seq<Connection>, after: nat)
    decreases |cs|
  {
    cs != [] ==>
    && (cs[0].source.Live? ==> after <= cs[0].source.joinedAfter <= |journal|)
    && Causal(journal, cs[1..], LastSeen(after, Delivers(journal, cs[0], after)))
  }

  lemma {:induction false} SliceLastSeen(journal: seq<Frame>, start: nat, end: nat, after: nat)
    requires Numbered(journal) && after <= start <= end <= |journal|
    ensures LastSeen(after, journal[start..end]) == if start == end then after else end
  {
    var d := journal[start..end];
    if start < end {
      SliceLastSeen(journal, start, end - 1, after);
      assert d[..|d| - 1] == journal[start..end - 1];
    }
  }

  lemma {:induction false} OneConnection(journal: seq<Frame>, c: Connection, after: nat)
    requires Numbered(journal) && after <= |journal|
    requires c.source.Live? ==> after <= c.source.joinedAfter <= |journal|
    ensures var start := StreamsFrom(|journal|, c.source, after);
            var d := Delivers(journal, c, after);
            && after <= start && (start == after <==> !Overflows(|journal|, c.source, after))
            && d == journal[start..start + |d|]
            && LastSeen(after, d) == if d == [] then after else start + |d|
  {
    var start := StreamsFrom(|journal|, c.source, after);
    var d := Delivers(journal, c, after);
    assert d == journal[start..start + |d|];
    SliceLastSeen(journal, start, start + |d|, after);
  }

  /** All numbers of fs lie above low and up to high, and its frames are the journal's. */
  ghost predicate Between(journal: seq<Frame>, fs: seq<Frame>, low: nat, high: nat) {
    forall i :: 0 <= i < |fs| ==> low < fs[i].seqNo <= high <= |journal| && fs[i] == journal[fs[i].seqNo - 1]
  }

  lemma {:induction false} FirstLeg(journal: seq<Frame>, c: Connection, after: nat)
    requires Numbered(journal) && after <= |journal|
    requires c.source.Live? ==> after <= c.source.joinedAfter <= |journal|
    ensures var d := Delivers(journal, c, after);
            && RunView.Ascending(d) && after <= LastSeen(after, d) <= |journal|
            && Between(journal, d, after, LastSeen(after, d))
  {
    OneConnection(journal, c, after);
    SliceLies(journal, StreamsFrom(|journal|, c.source, after), |Delivers(journal, c, after)|, after);
  }

  lemma {:induction false} SessionLies(journal: seq<Frame>, cs: seq<Connection>, after: nat)
    requires Numbered(journal) && after <= |journal| && Causal(journal, cs, after)
    ensures after <= Resume(journal, cs, after) <= |journal|
    ensures Between(journal, Session(journal, cs, after), after, Resume(journal, cs, after))
    decreases |cs|
  {
    if cs == [] {
    } else {
      var d := Delivers(journal, cs[0], after);
      var last := LastSeen(after, d);
      FirstLeg(journal, cs[0], after);
      SessionLies(journal, cs[1..], last);
      BetweenAppend(journal, d, Session(journal, cs[1..], last), after, last, Resume(journal, cs, after));
    }
  }

  lemma {:induction false} SliceLies(journal: seq<Frame>, start: nat, n: nat, after: nat)
    requires Numbered(journal) && after <= start && start + n <= |journal|
    ensures var d := journal[start..start + n];
            Between(journal, d, after, if n == 0 then after else start + n) && RunView.Ascending(d)
  {}

  lemma {:induction false} BetweenAppend(journal: seq<Frame>, a: seq<Frame>, b: seq<Frame>, low: nat, mid: nat, high: nat)
    requires low <= mid <= high <= |journal| && Between(journal, a, low, mid) && Between(journal, b, mid, high)
    ensures Between(journal, a + b, low, high)
  {}

  lemma {:induction false} AscendingJoin(journal: seq<Frame>, a: seq<Frame>, b: seq<Frame>, low: nat, mid: nat, high: nat)
    requires Between(journal, a, low, mid) && Between(journal, b, mid, high)
    requires RunView.Ascending(a) && RunView.Ascending(b)
    ensures RunView.Ascending(a + b)
  {}

  lemma {:induction false} SessionAscends(journal: seq<Frame>, cs: seq<Connection>, after: nat)
    requires Numbered(journal) && after <= |journal| && Causal(journal, cs, after)
    ensures RunView.Ascending(Session(journal, cs, after))
    decreases |cs|
  {
    if cs == [] {
    } else {
      var d := Delivers(journal, cs[0], after);
      var last := LastSeen(after, d);
      FirstLeg(journal, cs[0], after);
      SessionAscends(journal, cs[1..], last);
      SessionLies(journal, cs[1..], last);
      AscendingJoin(journal, d, Session(journal, cs[1..], last), after, last, Resume(journal, cs[1..], last));
    }
  }

  /** Across any reconnects the frames handed over ascend strictly, beyond after: no repeats. */
  lemma {:induction false} NeverRepeats(journal: seq<Frame>, cs: seq<Connection>, after: nat)
    requires Numbered(journal) && after <= |journal| && Causal(journal, cs, after)
    ensures var fs := Session(journal, cs, after);
            RunView.Ascending(fs) && Between(journal, fs, after, Resume(journal, cs, after))
  {
    SessionAscends(journal, cs, after);
    SessionLies(journal, cs, after);
  }

  lemma {:induction false} EmptyLeg(journal: seq<Frame>, c: Connection, after: nat)
    requires Delivers(journal, c, after) == []
    ensures LastSeen(after, Delivers(journal, c, after)) == after
  {}

  /** A connection that delivers something, followed by others: nothing is missing from the whole
      exactly if its ring had not overflowed and nothing is missing from the rest. */
  lemma {:induction false} FullLeg(journal: seq<Frame>, c: Connection, after: nat, rest: seq<Frame>, end: nat)
    requires Numbered(journal) && after <= |journal| && Delivers(journal, c, after) != []
    requires c.source.Live? ==> after <= c.source.joinedAfter <= |journal|
    requires LastSeen(after, Delivers(journal, c, after)) <= end <= |journal|
    ensures var d := Delivers(journal, c, after);
            && after <= LastSeen(after, d)
            && (d + rest == journal[after..end]
                <==> !Overflows(|journal|, c.source, after) && rest == journal[LastSeen(after, d)..end])
  {
    OneConnection(journal, c, after);
    ContiguousIff(journal, after, StreamsFrom(|journal|, c.source, after), Delivers(journal, c, after), rest, end);
  }

  /** And none is lost exactly when no ring overflowed past the client: then, and only then, the
      frames handed over are a contiguous stretch of the journal. */
  lemma {:induction false} LosslessIffNoOverflow(journal: seq<Frame>, cs: seq<Connection>, after: nat)
    requires Numbered(journal) && after <= |journal| && Causal(journal, cs, after)
    ensures after <= Resume(journal, cs, after) <= |journal|
    ensures Session(journal, cs, after) == journal[after..Resume(journal, cs, after)] <==> NoOverflow(journal, cs, after)
    decreases |cs|
  {
    if cs == [] {
    } else {
      var d := Delivers(journal, cs[0], after);
      var last := LastSeen(after, d);
      FirstLeg(journal, cs[0], after);
      LosslessIffNoOverflow(journal, cs[1..], last);
      if d == [] {
        EmptyLeg(journal, cs[0], after);
        assert d + Session(journal, cs[1..], last) == Session(journal, cs[1..], last);
      } else {
        FullLeg(journal, cs[0], after, Session(journal, cs[1..], last), Resume(journal, cs[1..], last));
      }
    }
  }

  lemma {:induction false} ContiguousIff(
      journal: seq<Frame>, after: nat, start: nat, d: seq<Frame>, rest: seq<Frame>, end: nat)
    requires Numbered(journal) && d != [] && after <= start && start + |d| <= end <= |journal|
    requires d == journal[start..start + |d|]
    ensures d + rest == journal[after..end] <==> start == after && rest == journal[start + |d|..end]
  {
    var whole := journal[after..end];
    if d + rest == whole {
      assert (d + rest)[0] == journal[start] && whole[0] == journal[after];
      assert rest == whole[|d|..];
    }
  }

  /** No viewer-side reset among the frames: the client listens for no such event. */
  predicate NoReset(frames: seq<Frame>) {
    forall i :: 0 <= i < |frames| ==> !frames[i].payload.ResetData?
  }

  /** The viewer resets whatever view it had and streams from the beginning: after any series of
      connections it shows the meaning of what was handed over, and of the journal's beginning if
      nothing overflowed. */
  lemma {:induction false} ViewAfterReconnects(v: RunView.View, reset: Frame, journal: seq<Frame>, cs: seq<Connection>)
    requires Numbered(journal) && NoReset(journal) && Causal(journal, cs, 0) && reset.payload.ResetData?
    ensures Resume(journal, cs, 0) <= |journal|
    ensures var shown := RunView.ReduceAll(v, [reset] + Session(journal, cs, 0));
            && shown == RunView.Meaning(RunView.Initial(), Session(journal, cs, 0))
            && (NoOverflow(journal, cs, 0) ==>
                  shown == RunView.Meaning(RunView.Initial(), journal[..Resume(journal, cs, 0)]))
  {
    var fs := Session(journal, cs, 0);
    NeverRepeats(journal, cs, 0);
    SessionLies(journal, cs, 0);
    LosslessIffNoOverflow(journal, cs, 0);
    AscendingIsAllFirsts(journal, fs, Resume(journal, cs, 0));
    assert NoReset(fs);
    ResetFirst(reset, fs);
    RunView.DuplicatesAreHarmless(v, [reset] + fs);
    assert journal[0..Resume(journal, cs, 0)] == journal[..Resume(journal, cs, 0)];
  }

  lemma {:induction false} ResetFirst(reset: Frame, fs: seq<Frame>)
    requires reset.payload.ResetData? && NoReset(fs)
    ensures RunView.HasReset([reset] + fs) && RunView.SinceReset([reset] + fs) == fs
  {
    if fs == [] {
      assert [reset] + fs == [reset];
    } else {
      var n := |fs| - 1;
      assert ([reset] + fs)[..n + 1] == [reset] + fs[..n];
      ResetFirst(reset, fs[..n]);
    }
  }

  lemma {:induction false} AscendingIsAllFirsts(journal: seq<Frame>, fs: seq<Frame>, high: nat)
    requires RunView.Ascending(fs) && Between(journal, fs, 0, high)
    ensures RunView.FirstDeliveries(0, fs) == fs
  {
    if fs == [] {
    } else {
      var init, f := fs[..|fs| - 1], fs[|fs| - 1];
      assert fs == init + [f];
      AscendingIsAllFirsts(journal, init, high);
      RunView.AscendingAppend(init, f);
    }
  }

  /** Ring overflow does lose frames: a ring of one, a client that reads frame 1, drops, and
      comes back after frame 3. */
  lemma OverflowLosesAFrame(f1: Frame, f2: Frame, f3: Frame)
    requires f1.seqNo == 1 && f2.seqNo == 2 && f3.seqNo == 3
    ensures var cs := [Connection(Live(1, 1), 1), Connection(Live(1, 3), 1)];
            Causal([f1, f2, f3], cs, 0) && Session([f1, f2, f3], cs, 0) == [f1, f3]
  {
    var journal := [f1, f2, f3];
    var c1, c2 := Connection(Live(1, 1), 1), Connection(Live(1, 3), 1);
    assert Delivers(journal, c1, 0) == [f1];
    assert LastSeen(0, [f1]) == 1 by { assert [f1][..0] == []; }
    assert Delivers(journal, c2, 1) == [f3];
    assert [c1, c2][1..] == [c2] && [c2][1..] == [];
    assert Session(journal, [c2], 1) == [f3] + Session(journal, [], LastSeen(1, [f3]));
  }
}
