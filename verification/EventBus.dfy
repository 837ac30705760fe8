/** The in-process event bus of a live run (sentinel/api/livelab/bus.py): numbered frames, a
    bounded ring for late joiners, a journal of everything, and one queue per subscriber.
    Each method is one critical section. */
module EventBus {
  import opened Common
  import opened Frames

  /** How many frames the ring of a bus that has emitted n frames no longer holds. */
  function Dropped(n: nat, capacity: nat): nat {
    Max(0, n - capacity)
  }

  /** The frames it still holds. */
  function Retained(journal: seq<Frame>, capacity: nat): seq<Frame> {
    journal[Dropped(|journal|, capacity)..]
  }

  lemma {:induction false} RetainedGrows(journal: seq<Frame>, frame: Frame, capacity: nat)
    ensures var grown := Retained(journal, capacity) + [frame];
            Retained(journal + [frame], capacity) == if |grown| > capacity then grown[1..] else grown
  {}

  lemma {:induction false} QueuedGrows(journal: seq<Frame>, frame: Frame, start: nat)
    requires start <= |journal|
    ensures Queued((journal + [frame])[start..]) == Queued(journal[start..]) + [Some(frame)]
  {
    assert (journal + [frame])[start..] == journal[start..] + [frame];
  }

  /** The first frame a subscriber joining after n frames is handed. */
  function JoinsAt(n: nat, capacity: nat, after: int): nat {
    Min(n, Max(Dropped(n, capacity), after))
  }

  /** A queue holds frames, and None as the end marker. */
  function Queued(frames: seq<Frame>): (q: seq<Option<Frame>>)
    ensures |q| == |frames|
  {
    seq(|frames|, i requires 0 <= i < |frames| => Some(frames[i]))
  }

  /** [f for f in frames if f["seq"] > after] */
  function Above(frames: seq<Frame>, after: int): seq<Frame> {
    if frames == [] then []
    else
      var n := |frames| - 1;
      Above(frames[..n], after) + if frames[n].seqNo > after then [frames[n]] else []
  }

  /** From position base to m: the frames of a numbered journal from position start on. */
  function From(journal: seq<Frame>, start: int, m: nat): seq<Frame>
    requires 0 <= start && m <= |journal|
  {
    if start < m then journal[start..m] else []
  }

  lemma {:induction false} FromGrows(journal: seq<Frame>, start: int, m: nat)
    requires 0 <= start && 0 < m <= |journal|
    ensures From(journal, start, m) == From(journal, start, m - 1) + if start < m then [journal[m - 1]] else []
  {
    if start < m { assert journal[start..m] == journal[start..m - 1] + [journal[m - 1]]; }
  }

  lemma {:induction false} SliceLast(journal: seq<Frame>, base: nat, m: nat)
    requires base < m <= |journal|
    ensures journal[base..m][..m - 1 - base] == journal[base..m - 1] && journal[base..m][m - 1 - base] == journal[m - 1]
  {}

  /** In a numbered journal the frames above a number are a suffix. */
  lemma {:induction false} AboveIsSuffix(journal: seq<Frame>, base: nat, m: nat, after: int)
    requires Numbered(journal) && base <= m <= |journal|
    ensures Above(journal[base..m], after) == From(journal, Max(base, after), m)
  {
    if m == base {
      assert journal[base..m] == [];
    } else {
      AboveIsSuffix(journal, base, m - 1, after);
      SliceLast(journal, base, m);
      FromGrows(journal, Max(base, after), m);
      assert journal[m - 1].seqNo == m;
    }
  }

  lemma {:induction false} RetainedAbove(journal: seq<Frame>, capacity: nat, after: int)
    requires Numbered(journal)
    ensures Above(Retained(journal, capacity), after) == journal[JoinsAt(|journal|, capacity, after)..]
  {
    AboveIsSuffix(journal, Dropped(|journal|, capacity), |journal|, after);
    assert Retained(journal, capacity) == journal[Dropped(|journal|, capacity)..|journal|];
  }

  lemma {:induction false} AboveStep(frames: seq<Frame>, i: nat, after: int)
    requires i < |frames|
    ensures Above(frames[..i + 1], after) == Above(frames[..i], after) + if frames[i].seqNo > after then [frames[i]] else []
    ensures Queued(Above(frames[..i + 1], after))
         == Queued(Above(frames[..i], after)) + if frames[i].seqNo > after then [Some(frames[i])] else []
  {
    assert frames[..i + 1][..i] == frames[..i];
  }

  class Subscription {
    var queue: seq<Option<Frame>>
    ghost var handed: seq<Option<Frame>>   // everything ever put
    ghost var taken: nat                   // how many of those have been taken
    ghost var start: nat                   // position in the journal of the first frame handed

    /** What is queued is what was handed over and not yet taken. */
    ghost predicate Fifo()
      reads this
    {
      taken <= |handed| && queue == handed[taken..]
    }

    /** It has been handed the journal from its starting position on. */
    ghost predicate Serves(journal: seq<Frame>)
      reads this
    {
      Fifo() && start <= |journal| && handed == Queued(journal[start..])
    }

    constructor ()
      ensures Fifo() && handed == [] && taken == 0 && start == 0
    {
      queue, handed, taken, start := [], [], 0, 0;
    }

    method Put(item: Option<Frame>)
      requires Fifo()
      modifies this
      ensures Fifo() && handed == old(handed) + [item] && taken == old(taken) && start == old(start)
    {
      queue := queue + [item];
      handed := handed + [item];
    }

    /** The next item in hand-over order, or an error while nothing is queued. */
    method Take() returns (r: Result<Option<Frame>, string>)
      requires Fifo()
      modifies this
      ensures Fifo() && handed == old(handed) && start == old(start)
      ensures if old(taken) == |handed| then r == Err("empty") && taken == old(taken)
              else r == Ok(handed[old(taken)]) && taken == old(taken) + 1
    {
      if queue == [] { return Err("empty"); }
      r := Ok(queue[0]);
      queue := queue[1..];
      taken := taken + 1;
    }
  }

  /** The loop over the ring that fills a new subscriber's queue. */
  method Replay(ring: seq<Frame>, sub: Subscription, after: int)
    requires sub.Fifo() && sub.handed == [] && sub.taken == 0
    modifies sub
    ensures sub.Fifo() && sub.taken == 0 && sub.handed == Queued(Above(ring, after))
  {
    for i := 0 to |ring|
      invariant sub.Fifo() && sub.taken == 0
      invariant sub.handed == Queued(Above(ring[..i], after))
    {
      AboveStep(ring, i, after);
      if ring[i].seqNo > after { sub.Put(Some(ring[i])); }
    }
    assert ring[..|ring|] == ring;
  }

  class Bus {
    const capacity: nat
    var lastSeq: nat
    var ring: seq<Frame>
    var subs: seq<Subscription>
    var closed: bool
    var journal: seq<Frame>

    /** The ring is the last frames of the journal, and every open subscriber has been handed
        every frame from its starting position on. */
    ghost predicate Valid()
      reads this, subs
    {
      && Numbered(journal) && lastSeq == |journal|
      && ring == Retained(journal, capacity)
      && Distinct()
      && (forall s :: s in subs ==> s.Serves(journal))
      && (closed ==> subs == [])
    }

    constructor (capacity: nat)
      ensures Valid() && journal == [] && subs == [] && !closed && this.capacity == capacity
    {
      this.capacity := capacity;
      lastSeq, ring, subs, closed, journal := 0, [], [], false, [];
    }

    ghost predicate Distinct()
      reads this
    {
      forall i, j :: 0 <= i < j < |subs| ==> subs[i] != subs[j]
    }

    /** for sub in self._subs: sub.put(item) */
    method Broadcast(item: Option<Frame>)
      requires Distinct() && forall s :: s in subs ==> s.Fifo()
      modifies subs
      ensures forall s :: s in subs ==>
        s.Fifo() && s.start == old(s.start) && s.taken == old(s.taken) && s.handed == old(s.handed) + [item]
    {
      for i := 0 to |subs|
        invariant forall s :: s in subs[i..] ==>
          s.Fifo() && s.start == old(s.start) && s.taken == old(s.taken) && s.handed == old(s.handed)
        invariant forall s :: s in subs[..i] ==>
          s.Fifo() && s.start == old(s.start) && s.taken == old(s.taken) && s.handed == old(s.handed) + [item]
      {
        subs[i].Put(item);
      }
    }

    method Emit(payload: Payload) returns (n: nat)
      requires Valid()
      modifies this, subs
      ensures Valid() && subs == old(subs) && closed == old(closed)
      ensures journal == old(journal) + [Frame(n, payload)] && n == |journal|
      ensures forall s :: s in subs ==>
        s.start == old(s.start) && s.taken == old(s.taken) && s.handed == old(s.handed) + [Some(Frame(n, payload))]
    {
      lastSeq := lastSeq + 1;
      var frame := Frame(lastSeq, payload);
      ghost var before := journal;
      RetainedGrows(before, frame, capacity);
      ring := ring + [frame];
      if |ring| > capacity { ring := ring[1..]; }   // a deque with maxlen
      journal := journal + [frame];
      Broadcast(Some(frame));
      forall s | s in subs ensures s.Serves(journal) { QueuedGrows(before, frame, s.start); }
      n := lastSeq;
    }

    method Backlog(after: int) returns (frames: seq<Frame>)
      requires Valid()
      ensures frames == journal[JoinsAt(|journal|, capacity, after)..]
    {
      frames := [];
      for i := 0 to |ring|
        invariant frames == Above(ring[..i], after)
      {
        AboveStep(ring, i, after);
        if ring[i].seqNo > after { frames := frames + [ring[i]]; }
      }
      assert ring[..|ring|] == ring;
      RetainedAbove(journal, capacity, after);
    }

    method Subscribe(after: int) returns (sub: Subscription)
      requires Valid()
      modifies this`subs
      ensures Valid() && fresh(sub) && sub.Fifo() && sub.taken == 0
      ensures sub.start == JoinsAt(|journal|, capacity, after)
      ensures sub.handed == Queued(journal[sub.start..]) + if closed then [None] else []
      ensures subs == if closed then old(subs) else old(subs) + [sub]
    {
      sub := new Subscription();
      Replay(ring, sub, after);
      RetainedAbove(journal, capacity, after);
      sub.start := JoinsAt(|journal|, capacity, after);
      if closed {
        sub.Put(None);
      } else {
        subs := subs + [sub];
      }
    }

    /** Emit the terminal frame, unless already closed, and end every subscription. */
    method Close()
      requires Valid()
      modifies this, subs
      ensures Valid() && closed && subs == []
      ensures journal == if old(closed) then old(journal) else old(journal) + [Frame(|old(journal)| + 1, DoneData)]
      ensures forall s :: s in old(subs) ==>
        s.Fifo() && s.start == old(s.start) <= |journal| && s.taken == old(s.taken)
        && s.handed == Queued(journal[s.start..]) + [None]
    {
      if !closed {
        var _ := Emit(DoneData);
      }
      closed := true;
      Broadcast(None);
      subs := [];
    }
  }

  // ----- what a subscriber's stream holds ----------------------------------------------

  /** A subscriber who joined after n frames asking for those above `after` is handed frame q
      exactly if it asked for it and the ring still held it on joining, and at one place only:
      the q-th frame comes q - 1 - start places into the stream. */
  lemma {:induction false} StreamHoldsExactly(journal: seq<Frame>, capacity: nat, n: nat, after: nat, q: nat)
    requires Numbered(journal) && after <= n <= |journal| && 1 <= q <= |journal|
    ensures var start := JoinsAt(n, capacity, after);
            var stream := Queued(journal[start..]);
            && (Some(journal[q - 1]) in stream <==> after < q && n - capacity < q)
            && forall k :: 0 <= k < |stream| ==> (stream[k] == Some(journal[q - 1]) <==> k == q - 1 - start)
  {
    var start := JoinsAt(n, capacity, after);
    var stream := Queued(journal[start..]);
    forall k | 0 <= k < |stream| ensures stream[k] == Some(journal[q - 1]) <==> k == q - 1 - start {
      assert stream[k] == Some(journal[start + k]) && journal[start + k].seqNo == start + k + 1;
    }
    if q > start { assert stream[q - 1 - start] == Some(journal[q - 1]); }
  }

  /** A joiner misses a frame it asked for exactly when the ring has already dropped one. */
  lemma {:induction false} JoinMissesIff(n: nat, capacity: nat, after: nat)
    requires after <= n
    ensures JoinsAt(n, capacity, after) >= after
    ensures JoinsAt(n, capacity, after) > after <==> n - after > capacity
  {}
}
