/** Hydrating the local span index (sentinel/newrelic/store.py): slice the incident window into
    chunks, halve a chunk whose page is full, keep the first row of each span id, and index the
    kept rows by parent. The remote store is any function from a window to a page. */
module Hydration {
  import opened Common
  import opened Spans

  const PAGE_LIMIT: nat := 5000
  const MIN_CHUNK_MS: nat := 2000
  const INGEST_LAG_MS: nat := 30000

  datatype Window = Window(lo: int, hi: int)

  /** A returned row. `valid` says that its fields other than the two ids pass the row schema. */
  datatype Entry = Entry(
    at: int, id: string, parent: string, service: string, kind: Option<string>, isError: bool, valid: bool)

  type Client = Window -> seq<Entry>

  /** The row mapper: no span without an id, and an empty parent is no parent. */
  function ToSpan(e: Entry, origin: int): Option<Span> {
    if !e.valid || e.id == "" then None
    else
      var seconds := (e.at - origin) / 1000;
      Some(Span(e.id, if e.parent == "" then None else Some(e.parent), Max(0, seconds), e.service, e.kind, e.isError))
  }

  /** The span is the row: under its id, with its parent if it names one, at whole seconds since the
      origin, and not before it. */
  ghost predicate Mirrors(e: Entry, origin: int, s: Span) {
    && e.valid && s.id == e.id != "" && s.service == e.service && s.kind == e.kind && s.isError == e.isError
    && (if e.parent == "" then s.parent == None else s.parent == Some(e.parent))
    && s.time >= 0 && (e.at >= origin ==> 1000 * s.time <= e.at - origin < 1000 * (s.time + 1)) && (e.at < origin ==> s.time == 0)
  }

  lemma {:induction false} ToSpanIff(e: Entry, origin: int, s: Span)
    ensures ToSpan(e, origin) == Some(s) <==> Mirrors(e, origin, s)
    ensures ToSpan(e, origin).Some? <==> e.valid && e.id != ""
  {}

  /** A window is split in its middle. */
  lemma {:induction false} MiddleIsMiddle(w: Window)
    ensures 2 * Middle(w) <= w.lo + w.hi < 2 * Middle(w) + 2
  {}

  /** The k-th chunk starts k sizes after the start and is one size long, the last one at most. */
  lemma {:induction false} ChunksAre(lo: int, hi: int, size: nat, k: nat)
    requires size > 0 && k < |Chunks(lo, hi, size)|
    ensures Chunks(lo, hi, size)[k] == Window(lo + k * size, Min(lo + (k + 1) * size, hi)) && lo + k * size < hi
    decreases k
  {
    if k > 0 {
      ChunksAre(lo + size, hi, size, k - 1);
      assert lo + size + (k - 1) * size == lo + k * size;
      assert lo + size + k * size == lo + (k + 1) * size;
    }
  }

  predicate Full(client: Client, w: Window) {
    |client(w)| >= PAGE_LIMIT
  }

  predicate Splits(client: Client, w: Window) {
    Full(client, w) && w.hi - w.lo > MIN_CHUNK_MS
  }

  function Middle(w: Window): int {
    (w.lo + w.hi) / 2
  }

  function Width(w: Window): nat {
    if w.lo < w.hi then w.hi - w.lo else 0
  }

  /** The windows whose pages end up in the result of fetching w. */
  function Leaves(client: Client, w: Window): (ws: seq<Window>)
    ensures ws != []
    decreases Width(w)
  {
    if Splits(client, w)
    then Leaves(client, Window(w.lo, Middle(w))) + Leaves(client, Window(Middle(w), w.hi))
    else [w]
  }

  /** The pages of several windows, one after the other. */
  function Gather(client: Client, ws: seq<Window>): seq<Entry> {
    if ws == [] then [] else client(ws[0]) + Gather(client, ws[1..])
  }

  /** The chunks of [lo, hi), the last one possibly shorter. */
  function Chunks(lo: int, hi: int, size: nat): seq<Window>
    requires size > 0
    decreases Width(Window(lo, hi))
  {
    if lo >= hi then []
    else
      var upper := if lo + size <= hi then lo + size else hi;
      [Window(lo, upper)] + Chunks(upper, hi, size)
  }

  /** The leaf windows of several chunks. */
  function AllLeaves(client: Client, chunks: seq<Window>): seq<Window> {
    if chunks == [] then [] else Leaves(client, chunks[0]) + AllLeaves(client, chunks[1..])
  }

  function Mapped(raw: seq<Entry>, origin: int): seq<Span> {
    if raw == [] then []
    else
      var n := |raw| - 1;
      var span := ToSpan(raw[n], origin);
      Mapped(raw[..n], origin) + if span.Some? then [span.value] else []
  }

  function Ids(spans: seq<Span>): set<string> {
    set s | s in spans :: s.id
  }

  /** The first of the rows carrying each id, in order. */
  function FirstById(rows: seq<Span>): seq<Span> {
    if rows == [] then []
    else
      var n := |rows| - 1;
      var front := FirstById(rows[..n]);
      if rows[n].id in Ids(front) then front else front + [rows[n]]
  }

  /** The rows whose parent is id. */
  function ChildrenIn(spans: seq<Span>, id: string): seq<Span> {
    if spans == [] then []
    else
      var n := |spans| - 1;
      ChildrenIn(spans[..n], id) + if id != "" && spans[n].parent == Some(id) then [spans[n]] else []
  }

  function Lookup(children: map<string, seq<Span>>, id: string): seq<Span> {
    if id in children then children[id] else []
  }

  /** children.get agrees with filtering the rows. */
  ghost predicate Indexes(children: map<string, seq<Span>>, spans: seq<Span>) {
    forall id :: Lookup(children, id) == ChildrenIn(spans, id)
  }

  class Store {
    const client: Client
    const startMs: int
    const endMs: int
    const chunkMs: nat
    var spans: Option<seq<Span>>
    var children: map<string, seq<Span>>
    var pages: nat

    ghost function Windows(): seq<Window>
      requires chunkMs > 0
    {
      AllLeaves(client, Chunks(startMs, endMs, chunkMs))
    }

    ghost function Index(): seq<Span>
      requires chunkMs > 0
    {
      FirstById(Mapped(Gather(client, Windows()), startMs))
    }

    ghost predicate Valid()
      reads this
    {
      && chunkMs > 0
      && (spans.Some? ==> spans.value == Index() && Indexes(children, Index()))
    }

    constructor (client: Client, windowStartMs: int, windowEndMs: int, nowMs: int, chunkMs: nat)
      requires chunkMs > 0
      ensures Valid() && spans == None && pages == 0
      ensures this.client == client && startMs == windowStartMs && this.chunkMs == chunkMs
      ensures endMs <= windowEndMs && endMs <= nowMs - 30000
      ensures endMs == windowEndMs || endMs == nowMs - 30000
    {
      this.client, startMs, this.chunkMs := client, windowStartMs, chunkMs;
      endMs := if windowEndMs <= nowMs - INGEST_LAG_MS then windowEndMs else nowMs - INGEST_LAG_MS;
      spans, children, pages := None, map[], 0;
    }

    /** One request, then two halves when its page is full and the window can still be cut. */
    method FetchChunk(w: Window) returns (rows: seq<Entry>)
      modifies this`pages
      ensures rows == Gather(client, Leaves(client, w))
      ensures pages == old(pages) + 2 * |Leaves(client, w)| - 1
      decreases Width(w)
    {
      pages := pages + 1;
      rows := client(w);
      if |rows| >= PAGE_LIMIT && w.hi - w.lo > MIN_CHUNK_MS {
        var left, right := Window(w.lo, Middle(w)), Window(Middle(w), w.hi);
        var first := FetchChunk(left);
        var second := FetchChunk(right);
        GatherAppend(client, Leaves(client, left), Leaves(client, right));
        rows := first + second;
      }
    }

    /** The whole window once; a hydrated store stays as it is and asks for nothing. */
    method Hydrate()
      requires Valid()
      modifies this
      ensures Valid() && spans == Some(Index())
      ensures old(spans).Some? ==> pages == old(pages) && spans == old(spans) && children == old(children)
      ensures old(spans).None? ==>
        pages == old(pages) + 2 * |Windows()| - |Chunks(startMs, endMs, chunkMs)|
    {
      if spans.Some? { return; }
      var raw := FetchAll();
      var kept := Deduplicate(raw, startMs);
      children := IndexByParent(kept);
      spans := Some(kept);
    }

    method FetchAll() returns (raw: seq<Entry>)
      requires chunkMs > 0
      modifies this`pages
      ensures raw == Gather(client, Windows())
      ensures pages == old(pages) + 2 * |Windows()| - |Chunks(startMs, endMs, chunkMs)|
    {
      raw := [];
      var cursor := startMs;
      ghost var done: seq<Window> := [];
      while cursor < endMs
        invariant startMs <= endMs ==> cursor <= endMs
        invariant Chunks(startMs, endMs, chunkMs) == done + Chunks(cursor, endMs, chunkMs)
        invariant raw == Gather(client, AllLeaves(client, done))
        invariant pages == old(pages) + 2 * |AllLeaves(client, done)| - |done|
        decreases endMs - cursor
      {
        var upper := if cursor + chunkMs <= endMs then cursor + chunkMs else endMs;
        var rows := FetchChunk(Window(cursor, upper));
        ChunkDone(client, done, Window(cursor, upper), Chunks(upper, endMs, chunkMs));
        done := done + [Window(cursor, upper)];
        raw := raw + rows;
        cursor := upper;
      }
      assert done + [] == done;
    }

    method AllSpans() returns (all: seq<Span>)
      requires Valid()
      modifies this
      ensures Valid() && all == Index() && spans == Some(all)
    {
      Hydrate();
      all := spans.value;
    }

    method ChildrenOf(id: string) returns (kids: seq<Span>)
      requires Valid()
      modifies this
      ensures Valid() && spans == Some(Index()) && kids == ChildrenIn(Index(), id)
    {
      Hydrate();
      kids := Lookup(children, id);
    }
  }

  method Deduplicate(raw: seq<Entry>, origin: int) returns (spans: seq<Span>)
    ensures spans == FirstById(Mapped(raw, origin))
  {
    spans := [];
    var seen: set<string> := {};
    for i := 0 to |raw|
      invariant spans == FirstById(Mapped(raw[..i], origin)) && seen == Ids(spans)
    {
      var row := ToSpan(raw[i], origin);
      MappedSnoc(raw, i, origin);
      if row.Some? {
        FirstByIdSnoc(Mapped(raw[..i], origin), row.value);
        if row.value.id !in seen {
          seen := seen + {row.value.id};
          IdsSnoc(spans, row.value);
          spans := spans + [row.value];
        }
      }
    }
    assert raw[..|raw|] == raw;
  }

  method IndexByParent(spans: seq<Span>) returns (children: map<string, seq<Span>>)
    ensures Indexes(children, spans)
  {
    children := map[];
    for i := 0 to |spans|
      invariant Indexes(children, spans[..i])
    {
      var row := spans[i];
      ghost var was := children;
      if row.parent.Some? && row.parent.value != "" {
        children := children[row.parent.value := Lookup(children, row.parent.value) + [row]];
      }
      forall id ensures Lookup(children, id) == ChildrenIn(spans[..i + 1], id) {
        ChildrenSnoc(spans, i, id);
        assert Lookup(was, id) == ChildrenIn(spans[..i], id);
      }
      assert Indexes(children, spans[..i + 1]);
    }
    assert spans[..|spans|] == spans;
  }

  lemma {:induction false} ChildrenSnoc(spans: seq<Span>, i: nat, id: string)
    requires i < |spans|
    ensures ChildrenIn(spans[..i + 1], id)
         == ChildrenIn(spans[..i], id) + if id != "" && spans[i].parent == Some(id) then [spans[i]] else []
  {
    assert spans[..i + 1][..i] == spans[..i];
  }

  lemma {:induction false} GatherAppend(client: Client, a: seq<Window>, b: seq<Window>)
    ensures Gather(client, a + b) == Gather(client, a) + Gather(client, b)
  {
    if a == [] {
      assert a + b == b;
    } else {
      var both := a + b;
      GatherAppend(client, a[1..], b);
      assert both[0] == a[0] && both[1..] == a[1..] + b;
      Associate(client(a[0]), Gather(client, a[1..]), Gather(client, b));
    }
  }

  lemma {:induction false} AllLeavesSnoc(client: Client, chunks: seq<Window>, w: Window)
    ensures AllLeaves(client, chunks + [w]) == AllLeaves(client, chunks) + Leaves(client, w)
  {
    var more := chunks + [w];
    if chunks == [] {
      assert more == [w] && more[1..] == [];
      assert AllLeaves(client, more) == Leaves(client, w) + AllLeaves(client, []);
    } else {
      var rest := chunks[1..];
      AllLeavesSnoc(client, rest, w);
      assert more[0] == chunks[0] && more[1..] == rest + [w];
      Associate(Leaves(client, chunks[0]), AllLeaves(client, rest), Leaves(client, w));
    }
  }

  lemma {:induction false} ChunkDone(client: Client, done: seq<Window>, w: Window, rest: seq<Window>)
    ensures done + ([w] + rest) == (done + [w]) + rest
    ensures AllLeaves(client, done + [w]) == AllLeaves(client, done) + Leaves(client, w)
    ensures Gather(client, AllLeaves(client, done + [w]))
         == Gather(client, AllLeaves(client, done)) + Gather(client, Leaves(client, w))
  {
    AllLeavesSnoc(client, done, w);
    GatherAppend(client, AllLeaves(client, done), Leaves(client, w));
  }

  lemma {:induction false} MappedSnoc(raw: seq<Entry>, i: nat, origin: int)
    requires i < |raw|
    ensures Mapped(raw[..i + 1], origin)
         == (match ToSpan(raw[i], origin)
             case Some(row) => Mapped(raw[..i], origin) + [row]
             case None => Mapped(raw[..i], origin))
  {
    assert raw[..i + 1][..i] == raw[..i];
  }

  lemma {:induction false} FirstByIdSnoc(rows: seq<Span>, row: Span)
    ensures var front := FirstById(rows);
            FirstById(rows + [row]) == if row.id in Ids(front) then front else front + [row]
  {
    assert (rows + [row])[..|rows|] == rows;
  }

  lemma {:induction false} IdsSnoc(spans: seq<Span>, row: Span)
    ensures Ids(spans + [row]) == Ids(spans) + {row.id}
  {
    forall id | id in Ids(spans) ensures id in Ids(spans + [row]) {
      var s :| s in spans && s.id == id;
      assert s in spans + [row];
    }
    assert row in spans + [row];
  }

  // ---------------------------------------------------------------- tiling

  /** The windows follow on from one another, none empty, and cover [lo, hi) exactly. */
  ghost predicate Tiles(ws: seq<Window>, lo: int, hi: int) {
    if ws == [] then lo >= hi
    else
      && ws[0].lo == lo && lo < ws[0].hi <= hi
      && (if |ws| == 1 then ws[0].hi == hi else ws[0].hi < hi)
      && Tiles(ws[1..], ws[0].hi, hi)
  }

  lemma {:induction false} TilesAppend(a: seq<Window>, lo: int, mid: int, b: seq<Window>, hi: int)
    requires Tiles(a, lo, mid) && Tiles(b, mid, hi) && lo < mid <= hi
    ensures Tiles(a + b, lo, hi)
  {
    assert (a + b)[1..] == a[1..] + b;
    if |a| == 1 {
      assert a[1..] + b == b;
    } else {
      TilesAppend(a[1..], a[0].hi, mid, b, hi);
    }
  }

  lemma {:induction false} LeavesTile(client: Client, w: Window)
    requires w.lo < w.hi
    ensures Tiles(Leaves(client, w), w.lo, w.hi)
    decreases Width(w)
  {
    if Splits(client, w) {
      var left, right := Window(w.lo, Middle(w)), Window(Middle(w), w.hi);
      LeavesTile(client, left);
      LeavesTile(client, right);
      TilesAppend(Leaves(client, left), w.lo, Middle(w), Leaves(client, right), w.hi);
    }
  }

  /** The windows whose pages are kept tile the store's interval exactly. */
  lemma {:induction false} WindowsTile(client: Client, lo: int, hi: int, size: nat)
    requires size > 0
    ensures Tiles(AllLeaves(client, Chunks(lo, hi, size)), lo, hi)
    decreases Width(Window(lo, hi))
  {
    if lo < hi {
      var first := Chunks(lo, hi, size)[0];
      LeavesTile(client, first);
      WindowsTile(client, first.hi, hi, size);
      TilesAppend(Leaves(client, first), lo, first.hi, AllLeaves(client, Chunks(first.hi, hi, size)), hi);
    }
  }

  /** Tiles never overlap, and every instant lies in one of them. */
  lemma {:induction false} OneWindowPerInstant(ws: seq<Window>, lo: int, hi: int, t: int) returns (i: nat)
    requires Tiles(ws, lo, hi) && lo <= t < hi
    ensures i < |ws| && ws[i].lo <= t < ws[i].hi
    ensures forall j :: 0 <= j < |ws| && ws[j].lo <= t < ws[j].hi ==> j == i
  {
    TilesWithin(ws[1..], ws[0].hi, hi);
    if t < ws[0].hi {
      i := 0;
      forall j | 0 < j < |ws| ensures ws[j].lo > t { assert ws[1..][j - 1] == ws[j]; }
    } else {
      var k := OneWindowPerInstant(ws[1..], ws[0].hi, hi, t);
      i := k + 1;
      assert ws[1..][k] == ws[i];
      forall j | 0 <= j < |ws| && ws[j].lo <= t < ws[j].hi ensures j == i {
        if j > 0 { assert ws[1..][j - 1] == ws[j]; }
      }
    }
  }

  lemma {:induction false} TilesWithin(ws: seq<Window>, lo: int, hi: int)
    requires Tiles(ws, lo, hi)
    ensures forall j :: 0 <= j < |ws| ==> lo <= ws[j].lo < ws[j].hi <= hi
  {
    if ws == [] {
    } else {
      TilesWithin(ws[1..], ws[0].hi, hi);
      forall j | 0 < j < |ws| ensures lo <= ws[j].lo < ws[j].hi <= hi { assert ws[1..][j - 1] == ws[j]; }
    }
  }

  // ---------------------------------------------------------------- cost

  /** A split never leaves a window narrower than half the minimum, so the pages a chunk costs,
      2 * |Leaves| - 1, are bounded by its width; and a leaf is full only when too narrow to cut. */
  lemma {:induction false} LeavesAreWide(client: Client, w: Window)
    requires w.hi - w.lo >= 1000
    ensures forall j :: 0 <= j < |Leaves(client, w)| ==> Leaves(client, w)[j].hi - Leaves(client, w)[j].lo >= 1000
    ensures |Leaves(client, w)| * 1000 <= w.hi - w.lo
    decreases Width(w)
  {
    if Splits(client, w) {
      LeavesAreWide(client, Window(w.lo, Middle(w)));
      LeavesAreWide(client, Window(Middle(w), w.hi));
    }
  }

  /** A window too narrow to cut costs one page. */
  lemma {:induction false} LeavesStop(client: Client, w: Window)
    ensures forall j :: 0 <= j < |Leaves(client, w)| ==>
      var leaf := Leaves(client, w)[j]; |client(leaf)| < 5000 || leaf.hi - leaf.lo <= 2000
    ensures |client(w)| < 5000 || w.hi - w.lo <= 2000 ==> Leaves(client, w) == [w]
    decreases Width(w)
  {
    if Splits(client, w) {
      LeavesStop(client, Window(w.lo, Middle(w)));
      LeavesStop(client, Window(Middle(w), w.hi));
    }
  }

  // ---------------------------------------------------------------- what the index holds

  /** A page holds rows of the database in its window, and all of them unless it is full. */
  ghost predicate Answers(db: seq<Entry>, page: seq<Entry>, w: Window) {
    && (forall e :: e in page ==> e in db && w.lo <= e.at <= w.hi)
    && (|page| < 5000 ==> forall e :: e in db && w.lo <= e.at < w.hi ==> e in page)
  }

  ghost predicate AnswersAll(db: seq<Entry>, client: Client, ws: seq<Window>) {
    forall j :: 0 <= j < |ws| ==> Answers(db, client(ws[j]), ws[j])
  }

  ghost predicate NoneFull(client: Client, ws: seq<Window>) {
    forall j :: 0 <= j < |ws| ==> |client(ws[j])| < 5000
  }

  /** Every mappable row of the interval is in the index under its id. */
  ghost predicate Complete(db: seq<Entry>, index: seq<Span>, lo: int, hi: int) {
    forall e :: e in db && lo <= e.at < hi && e.valid && e.id != "" ==> e.id in Ids(index)
  }

  lemma {:induction false} GatherHolds(client: Client, ws: seq<Window>, e: Entry)
    ensures e in Gather(client, ws) <==> exists j :: 0 <= j < |ws| && e in client(ws[j])
  {
    if ws == [] {
    } else {
      var rest := ws[1..];
      GatherHolds(client, rest, e);
      forall j | 0 <= j < |ws| && e in client(ws[j]) ensures e in Gather(client, ws) {
        assert j == 0 || rest[j - 1] == ws[j];
      }
      forall j | 0 <= j < |rest| && e in client(rest[j]) ensures e in client(ws[j + 1]) {}
    }
  }

  lemma {:induction false} MappedHolds(raw: seq<Entry>, origin: int, s: Span)
    ensures s in Mapped(raw, origin) <==> exists e :: e in raw && ToSpan(e, origin) == Some(s)
  {
    if raw == [] {
    } else {
      var n := |raw| - 1;
      MappedHolds(raw[..n], origin, s);
      assert raw == raw[..n] + [raw[n]];
    }
  }

  /** Each id once, no id lost, and every kept row is one of the rows. */
  lemma {:induction false} FirstByIdKeeps(rows: seq<Span>)
    ensures var kept := FirstById(rows);
            && UniqueIds(kept) && Ids(kept) == Ids(rows)
            && forall s :: s in kept ==> s in rows
  {
    if rows == [] {
    } else {
      var n := |rows| - 1;
      FirstByIdKeeps(rows[..n]);
      assert rows == rows[..n] + [rows[n]];
      IdsSnoc(rows[..n], rows[n]);
      var front := FirstById(rows[..n]);
      if rows[n].id !in Ids(front) {
        IdsSnoc(front, rows[n]);
        forall i | 0 <= i < n && i < |front| ensures front[i].id != rows[n].id { assert front[i] in front; }
      }
    }
  }

  /** The earliest row of an id is the one kept, and kept rows stay in the rows' order: the kept
      rows of a prefix are a prefix of the kept rows. */
  lemma {:induction false} EarliestWins(rows: seq<Span>, k: nat)
    requires k < |rows|
    ensures FirstById(rows[..k]) <= FirstById(rows)
    ensures rows[k].id !in Ids(rows[..k]) ==> FirstById(rows[..k]) + [rows[k]] <= FirstById(rows)
  {
    var n := |rows| - 1;
    if k == n {
      FirstByIdKeeps(rows[..n]);
    } else {
      EarliestWins(rows[..n], k);
      assert rows[..n][..k] == rows[..k];
    }
  }

  /** When no kept page is full, the index is exactly the interval's mappable spans: each id at
      one position, and every position a mapped row of the database. */
  lemma {:induction false} IndexIsExact(db: seq<Entry>, client: Client, lo: int, hi: int, size: nat)
    requires size > 0
    requires var ws := AllLeaves(client, Chunks(lo, hi, size)); AnswersAll(db, client, ws) && NoneFull(client, ws)
    ensures var ws := AllLeaves(client, Chunks(lo, hi, size));
            var index := FirstById(Mapped(Gather(client, ws), lo));
            && Complete(db, index, lo, hi) && UniqueIds(index)
            && forall s :: s in index ==> exists e :: e in db && lo <= e.at <= hi && Mirrors(e, lo, s)
  {
    var ws := AllLeaves(client, Chunks(lo, hi, size));
    var raw := Gather(client, ws);
    var rows := Mapped(raw, lo);
    WindowsTile(client, lo, hi, size);
    FirstByIdKeeps(rows);
    forall e | e in db && lo <= e.at < hi && ToSpan(e, lo).Some? ensures e.id in Ids(FirstById(rows)) {
      var i := OneWindowPerInstant(ws, lo, hi, e.at);
      assert !Full(client, ws[i]);
      GatherHolds(client, ws, e);
      MappedHolds(raw, lo, ToSpan(e, lo).value);
    }
    IndexIsSound(db, client, ws, lo, hi);
  }

  /** Full pages or not, nothing is invented. */
  lemma {:induction false} IndexIsSound(db: seq<Entry>, client: Client, ws: seq<Window>, lo: int, hi: int)
    requires Tiles(ws, lo, hi) && AnswersAll(db, client, ws)
    ensures forall s :: s in FirstById(Mapped(Gather(client, ws), lo)) ==>
      exists e :: e in db && lo <= e.at <= hi && Mirrors(e, lo, s)
  {
    var raw := Gather(client, ws);
    FirstByIdKeeps(Mapped(raw, lo));
    TilesWithin(ws, lo, hi);
    forall s | s in FirstById(Mapped(raw, lo))
      ensures exists e :: e in db && lo <= e.at <= hi && Mirrors(e, lo, s)
    {
      MappedHolds(raw, lo, s);
      var e :| e in raw && ToSpan(e, lo) == Some(s);
      ToSpanIff(e, lo, s);
      GatherHolds(client, ws, e);
      var j :| 0 <= j < |ws| && e in client(ws[j]);
      assert Answers(db, client(ws[j]), ws[j]);
    }
  }

  /** Completeness over every database the answers fit is exactly the absence of a full kept page. */
  lemma {:induction false} CompleteIffNoneFull(db: seq<Entry>, client: Client, lo: int, hi: int, size: nat)
    requires size > 0 && AnswersAll(db, client, AllLeaves(client, Chunks(lo, hi, size)))
    ensures var ws := AllLeaves(client, Chunks(lo, hi, size));
            var index := FirstById(Mapped(Gather(client, ws), lo));
            NoneFull(client, ws) <==>
            forall any :: AnswersAll(any, client, ws) ==> Complete(any, index, lo, hi)
  {
    var ws := AllLeaves(client, Chunks(lo, hi, size));
    var index := FirstById(Mapped(Gather(client, ws), lo));
    if NoneFull(client, ws) {
      forall any | AnswersAll(any, client, ws) ensures Complete(any, index, lo, hi) {
        IndexIsExact(any, client, lo, hi, size);
      }
    } else {
      var j :| 0 <= j < |ws| && Full(client, ws[j]);
      WindowsTile(client, lo, hi, size);
      TilesWithin(ws, lo, hi);
      var lost := Entry(ws[j].lo, FreshId(index), "", "", None, false, true);
      LostRow(db, client, ws, lo, hi, j, lost);
      FreshIdIsFresh(index);
      assert lost in db + [lost] && ToSpan(lost, lo).Some?;
      assert !Complete(db + [lost], index, lo, hi);
    }
  }

  /** A row in a full window can be missing from its page without any answer giving it away. */
  lemma {:induction false} LostRow(db: seq<Entry>, client: Client, ws: seq<Window>, lo: int, hi: int, j: nat, lost: Entry)
    requires Tiles(ws, lo, hi) && AnswersAll(db, client, ws)
    requires j < |ws| && Full(client, ws[j]) && ws[j].lo <= lost.at < ws[j].hi
    ensures AnswersAll(db + [lost], client, ws)
  {
    TilesWithin(ws, lo, hi);
    var only := OneWindowPerInstant(ws, lo, hi, lost.at);
    forall k | 0 <= k < |ws| ensures Answers(db + [lost], client(ws[k]), ws[k]) {
      assert Answers(db, client(ws[k]), ws[k]);
      assert k == j || !(ws[k].lo <= lost.at < ws[k].hi);
    }
  }

  function FreshId(spans: seq<Span>): string {
    if spans == [] then "x" else spans[0].id + FreshId(spans[1..])
  }

  lemma {:induction false} FreshIdIsFresh(spans: seq<Span>)
    ensures FreshId(spans) != "" && FreshId(spans) !in Ids(spans)
    ensures forall s :: s in spans ==> |s.id| < |FreshId(spans)|
  {
    if spans == [] {
    } else {
      FreshIdIsFresh(spans[1..]);
      forall s | s in spans ensures |s.id| < |FreshId(spans)| {
        if s != spans[0] { assert s in spans[1..]; }
      }
    }
  }

  /** The children of an id are the index rows naming it as parent, and a row has one parent. */
  lemma {:induction false} ChildrenAreTheirs(spans: seq<Span>, id: string, s: Span)
    ensures s in ChildrenIn(spans, id) <==> s in spans && id != "" && s.parent == Some(id)
    ensures multiset(ChildrenIn(spans, id))[s] == if id != "" && s.parent == Some(id) then multiset(spans)[s] else 0
  {
    if spans == [] {
    } else {
      var n := |spans| - 1;
      ChildrenAreTheirs(spans[..n], id, s);
      assert spans == spans[..n] + [spans[n]];
    }
  }
}
