/** Length-prefixed framing between the host and the sandbox (sentinel/sandbox/protocol.py):
    a 4-byte big-endian length and that many bytes, over streams that split writes and
    reads as they please. */
module Framing {
  import opened Common

  type Byte = b: int | 0 <= b < 256

  type Bytes = seq<Byte>

  const HEADER: nat := 4
  const LIMIT: nat := 0x1_0000_0000

  /** struct.pack(">I", n) */
  function BigEndian(n: nat): (h: Bytes)
    requires n < LIMIT
    ensures |h| == HEADER && FromBigEndian(h) == n
  {
    var high := n / 256;
    var higher := high / 256;
    [higher / 256, higher % 256, high % 256, n % 256]
  }

  /** struct.unpack(">I", h) */
  function FromBigEndian(h: Bytes): (n: nat)
    requires |h| == HEADER
    ensures n < LIMIT
  {
    (((h[0] as int) * 256 + h[1] as int) * 256 + h[2] as int) * 256 + h[3] as int
  }

  lemma HeaderIsUnique(h: Bytes)
    requires |h| == HEADER
    ensures BigEndian(FromBigEndian(h)) == h
  {
    var higher := (h[0] as int) * 256 + h[1] as int;
    var high := higher * 256 + h[2] as int;
    assert FromBigEndian(h) == high * 256 + h[3] as int;
    assert FromBigEndian(h) / 256 == high && high / 256 == higher;
  }

  predicate Sendable(payload: Bytes) {
    |payload| < LIMIT
  }

  function Framed(payload: Bytes): Bytes
    requires Sendable(payload)
  {
    BigEndian(|payload|) + payload
  }

  /** On the wire: four bytes, the most significant first, that spell the length, then the payload. */
  lemma {:induction false} FrameOnTheWire(payload: Bytes)
    requires |payload| < 4294967296
    ensures Sendable(payload) && |Framed(payload)| == 4 + |payload| && Framed(payload)[4..] == payload
    ensures var f := Framed(payload);
            16777216 * f[0] as int + 65536 * f[1] as int + 256 * f[2] as int + f[3] as int == |payload|
  {
    var h := BigEndian(|payload|);
    assert FromBigEndian(h) == |payload|;
    assert Framed(payload)[..4] == h;
  }

  function Encode(payloads: seq<Bytes>): Bytes
    requires forall p :: p in payloads ==> Sendable(p)
  {
    if payloads == [] then [] else Framed(payloads[0]) + Encode(payloads[1..])
  }

  /** The first complete message of a stream and what follows it. */
  function Split(stream: Bytes): (r: Option<(Bytes, Bytes)>)
    ensures r.Some? ==> Sendable(r.value.0) && stream == Framed(r.value.0) + r.value.1
  {
    if |stream| < HEADER then None
    else
      var n := FromBigEndian(stream[..HEADER]);
      if |stream| < HEADER + n then None
      else
        HeaderIsUnique(stream[..HEADER]);
        Some((stream[HEADER..HEADER + n], stream[HEADER + n..]))
  }

  function Decode(stream: Bytes): seq<Bytes>
    decreases |stream|
  {
    var s := Split(stream);
    if s.None? then [] else [s.value.0] + Decode(s.value.1)
  }

  // ----- the byte streams ----------------------------------------------------------------

  /** A raw writer: each write takes as much as it is planned to, possibly nothing; when the
      plan is used up it takes everything offered. */
  class Writer {
    var out: Bytes
    var plan: seq<nat>

    constructor (plan: seq<nat>)
      ensures out == [] && this.plan == plan
    {
      out, this.plan := [], plan;
    }

    method Write(view: Bytes) returns (written: nat)
      modifies this
      ensures written <= |view| && out == old(out) + view[..written]
      ensures if old(plan) == [] then written == |view| && plan == [] else plan == old(plan)[1..]
    {
      if plan == [] {
        written := |view|;
      } else {
        written := if plan[0] <= |view| then plan[0] else |view|;
        plan := plan[1..];
      }
      out := out + view[..written];
    }
  }

  method SendAll(w: Writer, data: Bytes)
    modifies w
    ensures w.out == old(w.out) + data
  {
    var view := data;
    while view != []
      invariant w.out + view == old(w.out) + data
      decreases |w.plan|, |view|
    {
      var written := w.Write(view);
      if written > 0 { view := view[written..]; }
    }
    assert view == [];
  }

  /** Packing the length fails for a payload of 2^32 bytes or more, before anything is sent. */
  method SendMsg(w: Writer, payload: Bytes) returns (r: Result<(), string>)
    modifies w
    ensures r.Ok? <==> Sendable(payload)
    ensures w.out == old(w.out) + if Sendable(payload) then Framed(payload) else []
  {
    if |payload| >= LIMIT { return Err("struct.error"); }
    SendAll(w, BigEndian(|payload|) + payload);
    r := Ok(());
  }

  /** A reader over the bytes the other side sent before closing: each read yields at least one
      byte until they are exhausted, then nothing. */
  class Reader {
    var pending: Bytes
    var plan: seq<nat>

    constructor (pending: Bytes, plan: seq<nat>)
      ensures this.pending == pending && this.plan == plan
    {
      this.pending, this.plan := pending, plan;
    }

    method Recv(n: nat) returns (chunk: Bytes)
      requires n > 0
      modifies this
      ensures |chunk| <= n && old(pending) == chunk + pending
      ensures chunk == [] <==> old(pending) == []
    {
      var want := if plan == [] || plan[0] == 0 || plan[0] > n then n else plan[0];
      if plan != [] { plan := plan[1..]; }
      var k := if want <= |pending| then want else |pending|;
      chunk := pending[..k];
      pending := pending[k..];
    }
  }

  method RecvExactly(r: Reader, n: nat) returns (got: Option<Bytes>)
    modifies r
    ensures if |old(r.pending)| >= n then got == Some(old(r.pending)[..n]) && r.pending == old(r.pending)[n..]
            else got == None && r.pending == []
  {
    var buf := [];
    while |buf| < n
      invariant |buf| <= n && old(r.pending) == buf + r.pending
    {
      var chunk := r.Recv(n - |buf|);
      if chunk == [] { return None; }
      buf := buf + chunk;
    }
    got := Some(buf);
  }

  method RecvMsg(r: Reader) returns (msg: Option<Bytes>)
    modifies r
    ensures match Split(old(r.pending))
            case None => msg == None && r.pending == []
            case Some((payload, rest)) => msg == Some(payload) && r.pending == rest
  {
    var header := RecvExactly(r, HEADER);
    if header.None? { return None; }
    var length := FromBigEndian(header.value);
    ghost var stream := old(r.pending);
    assert HEADER + length <= |stream| ==>
      && stream[HEADER..][..length] == stream[HEADER..HEADER + length]
      && stream[HEADER..][length..] == stream[HEADER + length..];
    msg := RecvExactly(r, length);
  }

  /** recv_msg with its decoder, which fails on a payload that is no message. */
  method RecvObject<M>(r: Reader, dec: Bytes -> Result<M, string>) returns (msg: Result<Option<M>, string>)
    modifies r
    ensures match Split(old(r.pending))
            case None => msg == Ok(None) && r.pending == []
            case Some((payload, rest)) =>
              r.pending == rest && msg == match dec(payload) case Ok(m) => Ok(Some(m)) case Err(e) => Err(e)
  {
    var payload := RecvMsg(r);
    if payload.None? { return Ok(None); }
    match dec(payload.value) {
      case Ok(m) => msg := Ok(Some(m));
      case Err(e) => msg := Err(e);
    }
  }

  /** The messages before the first that is too long to send. */
  function SendablePrefix(payloads: seq<Bytes>): (sent: seq<Bytes>)
    ensures sent <= payloads && forall p :: p in sent ==> Sendable(p)
  {
    if payloads == [] || !Sendable(payloads[0]) then [] else [payloads[0]] + SendablePrefix(payloads[1..])
  }

  /** One send after the other, up to the first failure. */
  method SendMessages(w: Writer, payloads: seq<Bytes>) returns (r: Result<(), string>)
    modifies w
    ensures w.out == old(w.out) + Encode(SendablePrefix(payloads))
    ensures r.Ok? <==> SendablePrefix(payloads) == payloads
  {
    for i := 0 to |payloads|
      invariant w.out + Encode(SendablePrefix(payloads[i..])) == old(w.out) + Encode(SendablePrefix(payloads))
      invariant |SendablePrefix(payloads)| == i + |SendablePrefix(payloads[i..])|
    {
      PrefixStep(payloads, i);
      ghost var before := w.out;
      r := SendMsg(w, payloads[i]);
      if r.Err? { return; }
      Associate(before, Framed(payloads[i]), Encode(SendablePrefix(payloads[i + 1..])));
    }
    assert payloads[|payloads|..] == [];
    r := Ok(());
  }

  lemma {:induction false} PrefixStep(payloads: seq<Bytes>, i: nat)
    requires i < |payloads|
    ensures var here, next := SendablePrefix(payloads[i..]), SendablePrefix(payloads[i + 1..]);
            if Sendable(payloads[i]) then |here| == 1 + |next| && Encode(here) == Framed(payloads[i]) + Encode(next)
            else here == []
  {
    assert payloads[i..][1..] == payloads[i + 1..];
    var next := SendablePrefix(payloads[i + 1..]);
    assert ([payloads[i]] + next)[1..] == next;
  }

  /** Over any plan of partial writes and any plan of short reads, what one side sends the other
      receives, in order and completely, up to the first message too long to send. */
  method Exchange(payloads: seq<Bytes>, writePlan: seq<nat>, readPlan: seq<nat>) returns (got: seq<Bytes>)
    ensures got == SendablePrefix(payloads)
    ensures (forall p :: p in payloads ==> Sendable(p)) ==> got == payloads
  {
    var w := new Writer(writePlan);
    var sent := SendMessages(w, payloads);
    assert w.out == Encode(SendablePrefix(payloads));
    var r := new Reader(w.out, readPlan);
    got := ReceiveAll(r);
    RoundTrip(SendablePrefix(payloads));
    AllSendable(payloads);
  }

  lemma {:induction false} AllSendable(payloads: seq<Bytes>)
    ensures (forall p :: p in payloads ==> Sendable(p)) ==> SendablePrefix(payloads) == payloads
  {
    if payloads == [] {
    } else {
      AllSendable(payloads[1..]);
      assert payloads == [payloads[0]] + payloads[1..];
      assert forall p :: p in payloads[1..] ==> p in payloads;
    }
  }

  /** The receive loop of either side: messages until there are no more. */
  method ReceiveAll(r: Reader) returns (msgs: seq<Bytes>)
    modifies r
    ensures msgs == Decode(old(r.pending)) && r.pending == []
  {
    msgs := [];
    while true
      invariant msgs + Decode(r.pending) == Decode(old(r.pending))
      decreases |r.pending|
    {
      var msg := RecvMsg(r);
      if msg.None? { return; }
      msgs := msgs + [msg.value];
    }
  }

  // ----- round trips -------------------------------------------------------------------------

  lemma {:induction false} SplitFramed(payload: Bytes, rest: Bytes)
    requires Sendable(payload)
    ensures Split(Framed(payload) + rest) == Some((payload, rest))
  {
    var stream := Framed(payload) + rest;
    assert stream[..HEADER] == BigEndian(|payload|);
    assert stream[HEADER..HEADER + |payload|] == payload;
    assert stream[HEADER + |payload|..] == rest;
  }

  /** Messages whose frames lie wholly within the first n bytes. */
  function Complete(payloads: seq<Bytes>, n: nat): (k: nat)
    ensures k <= |payloads|
  {
    if payloads == [] || n < HEADER + |payloads[0]| then 0
    else 1 + Complete(payloads[1..], n - HEADER - |payloads[0]|)
  }

  /** A stream cut after n bytes yields exactly the messages that were complete by then. */
  lemma {:induction false} TruncatedStream(payloads: seq<Bytes>, n: nat)
    requires forall p :: p in payloads ==> Sendable(p)
    requires n <= |Encode(payloads)|
    ensures Decode(Encode(payloads)[..n]) == payloads[..Complete(payloads, n)]
  {
    var cut := Encode(payloads)[..n];
    if payloads == [] {
    } else if n < |Framed(payloads[0])| {
      CutHeader(payloads[0], n, cut);
    } else {
      TruncatedStream(payloads[1..], n - |Framed(payloads[0])|);
      WholeHead(payloads, n);
      CompleteHead(payloads, n);
    }
  }

  lemma {:induction false} WholeHead(payloads: seq<Bytes>, n: nat)
    requires forall p :: p in payloads ==> Sendable(p)
    requires payloads != [] && |Framed(payloads[0])| <= n <= |Encode(payloads)|
    ensures var rest := Encode(payloads[1..])[..n - |Framed(payloads[0])|];
            Decode(Encode(payloads)[..n]) == [payloads[0]] + Decode(rest)
  {
    CutAfter(Framed(payloads[0]), Encode(payloads[1..]), n);
    DecodeHead(payloads[0], Encode(payloads[1..])[..n - |Framed(payloads[0])|]);
  }

  lemma {:induction false} CutAfter(a: Bytes, b: Bytes, n: nat)
    requires |a| <= n <= |a + b|
    ensures (a + b)[..n] == a + b[..n - |a|]
  {}

  lemma {:induction false} DecodeHead(payload: Bytes, rest: Bytes)
    requires Sendable(payload)
    ensures Decode(Framed(payload) + rest) == [payload] + Decode(rest)
  {
    SplitFramed(payload, rest);
  }

  lemma {:induction false} CompleteHead(payloads: seq<Bytes>, n: nat)
    requires payloads != [] && HEADER + |payloads[0]| <= n
    ensures var k := Complete(payloads[1..], n - HEADER - |payloads[0]|);
            payloads[..Complete(payloads, n)] == [payloads[0]] + payloads[1..][..k]
  {}

  lemma {:induction false} CutHeader(payload: Bytes, n: nat, cut: Bytes)
    requires Sendable(payload) && n < |Framed(payload)| && cut == Framed(payload)[..n]
    ensures Split(cut) == None
  {
    if n >= HEADER { assert cut[..HEADER] == BigEndian(|payload|); }
  }

  /** What was sent is what is received, in order, and then nothing. */
  lemma {:induction false} RoundTrip(payloads: seq<Bytes>)
    requires forall p :: p in payloads ==> Sendable(p)
    ensures Decode(Encode(payloads)) == payloads
  {
    AllComplete(payloads);
    TruncatedStream(payloads, |Encode(payloads)|);
    assert Encode(payloads)[..|Encode(payloads)|] == Encode(payloads);
    assert payloads[..|payloads|] == payloads;
  }

  lemma {:induction false} AllComplete(payloads: seq<Bytes>)
    requires forall p :: p in payloads ==> Sendable(p)
    ensures Complete(payloads, |Encode(payloads)|) == |payloads|
  {
    if payloads == [] {
    } else {
      AllComplete(payloads[1..]);
    }
  }

  /** Whatever the stream, nothing is invented: it begins with the frames of what was received,
      and what is left over holds no complete message. */
  lemma {:induction false} NothingInvented(stream: Bytes) returns (rest: Bytes)
    ensures forall p :: p in Decode(stream) ==> Sendable(p)
    ensures stream == Encode(Decode(stream)) + rest && Split(rest) == None
    decreases |stream|
  {
    var s := Split(stream);
    if s.None? {
      rest := stream;
    } else {
      rest := NothingInvented(s.value.1);
      var got := Decode(stream);
      assert got[1..] == Decode(s.value.1);
      assert stream == Framed(s.value.0) + (Encode(Decode(s.value.1)) + rest);
    }
  }

  function Encoded<M>(enc: M -> Bytes, msgs: seq<M>): seq<Bytes> {
    seq(|msgs|, i requires 0 <= i < |msgs| => enc(msgs[i]))
  }

  /** With any codec that decodes what it encodes, whole messages survive the trip. */
  lemma {:induction false} MessagesRoundTrip<M(!new)>(enc: M -> Bytes, dec: Bytes -> Option<M>, msgs: seq<M>)
    requires forall m :: dec(enc(m)) == Some(m)
    requires forall m :: m in msgs ==> Sendable(enc(m))
    ensures forall p :: p in Encoded(enc, msgs) ==> Sendable(p)
    ensures var got := Decode(Encode(Encoded(enc, msgs)));
            |got| == |msgs| && forall i :: 0 <= i < |msgs| ==> dec(got[i]) == Some(msgs[i])
  {
    RoundTrip(Encoded(enc, msgs));
  }
}
