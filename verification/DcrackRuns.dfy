/** The coordinator's requests, each one atomic step, and what every request keeps. */
module DcrackRuns {
  import opened Options
  import opened DcrackTables

  /** What has happened so far: chunks handed out, chunks reported, chunks reported since the network's
      work was last deleted, and those of them that the server has written down. */
  datatype Hist = Hist(given: set<Chunk>, reported: set<Chunk>, since: set<Chunk>, counted: set<Chunk>)
  datatype Sys = Sys(db: Db, h: Hist)

  datatype Op =
    | Upload(id: string, lines: nat)
    | SetDict(id: string)
    | Crack(bssid: string)
    | Remove(bssid: string)
    | GetWork(now: int)
    | Result(chunk: Chunk, now: int)
    | Password(bssid: string, pass: string, found: bool)

  function Init(): Sys {
    Sys(Db([], [], []), Hist({}, {}, {}, {}))
  }

  /** Dictionaries have a line and an id that is their hash; clients report what they were given. */
  predicate Allowed(s: Sys, op: Op) {
    match op
    case Upload(id, lines) => lines > 0 && forall d :: d in s.db.dicts && d.id == id ==> d.lines == lines
    case Result(c, _) => c in s.h.given
    case _ => true
  }

  function Cleared(chunks: set<Chunk>, net: string): set<Chunk> {
    set c | c in chunks && c.net != net
  }

  /** net_done */
  function NetDone(s: Sys, net: string, pass: Option<string>): Sys {
    Sys(s.db.(nets := Closed(s.db.nets, net, pass), work := WithoutNet(s.db.work, net)),
        s.h.(since := Cleared(s.h.since, net), counted := Cleared(s.h.counted, net)))
  }

  function HandOut(s: Sys, work: seq<Work>, c: Chunk, now: int): Sys {
    Sys(s.db.(work := Assigned(work, c, now)), s.h.(given := s.h.given + {c}))
  }

  /** do_getwork: the next system state, and the chunk handed out. Without a current dictionary the
      request fails, once old rows have been deleted; a deletion of the oldest row that frees nothing
      is rolled back. */
  function GetWorkStep(s: Sys, now: int): (Sys, Option<Chunk>) {
    var work := Unexpired(s.db.work, now);
    var none := (Sys(s.db.(work := work), s.h), None);
    var nets, d, oldest := Active(s.db.nets), Current(s.db.dicts), Oldest(work);
    if nets == [] || d.None? then none
    else
      var c := FirstChunk(work, nets, d.value);
      if c.Some? then (HandOut(s, work, c.value, now), c)
      else if oldest.None? then none
      else
        var freed := WithoutId(work, oldest.value.id);
        var c := FirstChunk(freed, nets, d.value);
        if c.Some? then (HandOut(s, freed, c.value, now), c) else none
  }

  /** do_result looks at the network's first row only. */
  predicate AlreadyDone(nets: seq<Net>, net: string) {
    FirstNet(nets, net).Some? && FirstNet(nets, net).value.state == 2
  }

  /** The report is written down. */
  function Noted(s: Sys, c: Chunk, now: int): Sys {
    Sys(s.db.(work := Reported(s.db.work, c, now)), s.h.(reported := s.h.reported + {c}, since := s.h.since + {c}, counted := s.h.counted + {c}))
  }

  /** do_result without a password. */
  function ResultStep(s: Sys, c: Chunk, now: int): Sys {
    if AlreadyDone(s.db.nets, c.net) then s.(h := s.h.(reported := s.h.reported + {c}, since := s.h.since + {c}))
    else
      var noted := Noted(s, c, now);
      if Complete(noted.db.work, c.net, c.dict, Lines(s.db.dicts, c.dict)) then NetDone(noted, c.net, None) else noted
  }

  function Step(s: Sys, op: Op): Sys {
    match op
    case Upload(id, lines) => s.(db := s.db.(dicts := s.db.dicts + [Dict(id, lines, false)]))
    case SetDict(id) => s.(db := s.db.(dicts := SetCurrent(s.db.dicts, id)))
    case Crack(bssid) => s.(db := s.db.(nets := s.db.nets + [Net(bssid, None, 1)]))
    case Remove(bssid) =>
      Sys(s.db.(nets := WithoutBssid(s.db.nets, bssid), work := WithoutNet(s.db.work, bssid)),
          s.h.(since := Cleared(s.h.since, bssid), counted := Cleared(s.h.counted, bssid)))
    case GetWork(now) => GetWorkStep(s, now).0
    case Result(c, now) => ResultStep(s, c, now)
    case Password(bssid, pass, found) => if found then NetDone(s, bssid, Some(pass)) else s
  }

  // ---------------------------------------------------------------- the invariant

  /** Every row stands for a chunk of its dictionary: the alignment nothing in the program states. */
  predicate RowsOk(work: seq<Work>, dicts: seq<Dict>) {
    forall r :: r in work ==> (r.state == 1 || r.state == 2) && IsChunk(r.start, r.end, Lines(dicts, r.dict))
  }

  predicate ChunksOk(chunks: set<Chunk>, dicts: seq<Dict>) {
    forall c :: c in chunks ==> IsChunk(c.start, c.end, Lines(dicts, c.dict))
  }

  /** The rows in state 2 are the reports written down. */
  predicate CountedOk(work: seq<Work>, counted: set<Chunk>) {
    && (forall r :: r in work ==> (r.state == 2 <==> ChunkOf(r) in counted))
    && (forall c :: c in counted ==> HasChunk(work, c))
  }

  /** Every report since the network's work was last deleted is written down, unless the network's
      first row was closed already. */
  predicate SinceOk(nets: seq<Net>, since: set<Chunk>, counted: set<Chunk>) {
    counted <= since && forall c :: c in since && !AlreadyDone(nets, c.net) ==> c in counted
  }

  ghost predicate AllReported(reported: set<Chunk>, net: string, dict: string, lines: int) {
    forall n :: 0 <= n < lines ==> LineIn(reported, net, dict, n)
  }

  predicate LineIn(chunks: set<Chunk>, net: string, dict: string, n: int) {
    exists c :: c in chunks && c.net == net && c.dict == dict && c.start <= n < c.end
  }

  /** A network given up without a password has had a whole dictionary reported. */
  ghost predicate ClosedOk(nets: seq<Net>, dicts: seq<Dict>, reported: set<Chunk>) {
    forall n :: n in nets && n.state == 2 && n.pass.None? ==> GivenUp(dicts, reported, n.bssid)
  }

  ghost predicate GivenUp(dicts: seq<Dict>, reported: set<Chunk>, net: string) {
    exists d :: d in dicts && AllReported(reported, net, d.id, d.lines)
  }

  ghost predicate Inv(s: Sys) {
    && DictsOk(s.db.dicts) && Unique(s.db.work)
    && RowsOk(s.db.work, s.db.dicts)
    && ChunksOk(s.h.given, s.db.dicts)
    && CountedOk(s.db.work, s.h.counted)
    && SinceOk(s.db.nets, s.h.since, s.h.counted) && s.h.since <= s.h.reported <= s.h.given
    && ClosedOk(s.db.nets, s.db.dicts, s.h.reported)
  }

  // ---------------------------------------------------------------- the next chunk

  lemma OfChunks(work: seq<Work>, dicts: seq<Dict>, net: string, dict: string)
    requires RowsOk(work, dicts)
    ensures Chunks(ByStart(Of(work, net, dict)), Lines(dicts, dict))
    ensures Chunks(ByStart(Of(Done(work), net, dict)), Lines(dicts, dict))
  {
  }

  /** The first free line is where a chunk begins, or the end. */
  lemma {:induction false} FreeAligned(rows: seq<Work>, k: nat, i: int, lines: int)
    requires Chunks(rows, lines) && Strict(rows) && Prefix(rows, k, i, lines)
    ensures FirstFree(rows, 0, lines) % CHUNK == 0 || FirstFree(rows, 0, lines) == lines
    decreases |rows| - k
  {
    if k < |rows| && rows[k].start == i {
      PrefixNext(rows, k, i, lines);
      FreeAligned(rows, k + 1, rows[k].end, lines);
    } else {
      PrefixEnd(rows, k, i, lines);
    }
  }

  /** The next chunk is a chunk, and no row has it. */
  lemma NextChunkOk(work: seq<Work>, dicts: seq<Dict>, net: string, d: Dict)
    requires Unique(work) && RowsOk(work, dicts) && DictsOk(dicts) && d in dicts
    ensures var c := NextChunk(work, net, d);
            c.Some? ==> c.value.net == net && c.value.dict == d.id && IsChunk(c.value.start, c.value.end, Lines(dicts, d.id)) &&
                        forall r :: r in work ==> !(r.net == net && r.dict == d.id && r.start == c.value.start)
  {
    hide IsChunk;
    var rows := ByStart(Of(work, net, d.id));
    OfChunks(work, dicts, net, d.id);
    OfDistinct(work, net, d.id);
    ByStartStrict(Of(work, net, d.id));
    PrefixStart(rows, d.lines);
    FreeAligned(rows, 0, 0, d.lines);
    FirstFreeSame(rows, Of(work, net, d.id), d.lines);
    NextChunkNew(work, net, d, rows);
  }

  lemma NextChunkNew(work: seq<Work>, net: string, d: Dict, rows: seq<Work>)
    requires d.lines > 0 && Chunks(rows, d.lines) && forall r :: r in rows <==> r in Of(work, net, d.id)
    requires FirstFree(Of(work, net, d.id), 0, d.lines) % CHUNK == 0 || FirstFree(Of(work, net, d.id), 0, d.lines) == d.lines
    ensures var c := NextChunk(work, net, d);
            c.Some? ==> c.value.net == net && c.value.dict == d.id && IsChunk(c.value.start, c.value.end, d.lines) &&
                        forall r :: r in work ==> !(r.net == net && r.dict == d.id && r.start == c.value.start)
  {
    var i := FirstFree(Of(work, net, d.id), 0, d.lines);
    if i < d.lines {
      forall r | r in work && r.net == net && r.dict == d.id
        ensures r.start != i
      {
        assert r in rows;
        assert r.start == i ==> Covers(Of(work, net, d.id), i);
      }
    }
  }

  lemma {:induction false} FirstChunkOk(work: seq<Work>, dicts: seq<Dict>, nets: seq<Net>, d: Dict)
    requires Unique(work) && RowsOk(work, dicts) && DictsOk(dicts) && d in dicts
    ensures var c := FirstChunk(work, nets, d);
            c.Some? ==> IsChunk(c.value.start, c.value.end, Lines(dicts, c.value.dict)) &&
                        (forall r :: r in work ==> !(r.net == c.value.net && r.dict == c.value.dict && r.start == c.value.start)) &&
                        exists n :: n in nets && NextChunk(work, n.bssid, d) == c
    ensures FirstChunk(work, nets, d).None? ==> forall n :: n in nets ==> NextChunk(work, n.bssid, d).None?
  {
    hide IsChunk, NextChunk, RowsOk;
    if nets != [] {
      NextChunkOk(work, dicts, nets[0].bssid, d);
      FirstChunkOk(work, dicts, nets[1..], d);
      assert nets[0] in nets;
      assert forall n :: n in nets ==> n == nets[0] || n in nets[1..];
    }
  }

  // ---------------------------------------------------------------- every request keeps the invariant

  /** Deleting rows keeps the invariant as far as it speaks about the work table, if no report is lost
      or if it is forgotten as well. */
  lemma DeleteKeeps(work: seq<Work>, dicts: seq<Dict>, counted: set<Chunk>, p: Work -> bool, counted': set<Chunk>)
    requires Unique(work) && RowsOk(work, dicts) && CountedOk(work, counted)
    requires counted' <= counted
    requires forall r :: r in work && r.state == 2 ==> (p(r) <==> ChunkOf(r) in counted')
    ensures Unique(Where(work, p)) && RowsOk(Where(work, p), dicts) && CountedOk(Where(work, p), counted')
  {
    hide IsChunk;
    UniqueWhere(work, p);
    forall c | c in counted'
      ensures HasChunk(Where(work, p), c)
    {
      assert HasChunk(work, c);
      var r :| r in work && ChunkOf(r) == c;
      assert r.state == 2;
      assert r in Where(work, p);
    }
  }

  /** Handing out a chunk that no row has. */
  lemma AssignKeeps(work: seq<Work>, dicts: seq<Dict>, counted: set<Chunk>, c: Chunk, now: int)
    requires Unique(work) && RowsOk(work, dicts) && CountedOk(work, counted)
    requires IsChunk(c.start, c.end, Lines(dicts, c.dict))
    requires forall r :: r in work ==> !(r.net == c.net && r.dict == c.dict && r.start == c.start)
    ensures Unique(Assigned(work, c, now)) && RowsOk(Assigned(work, c, now), dicts) && CountedOk(Assigned(work, c, now), counted)
  {
    hide IsChunk;
    var row := Work(NextId(work), c.net, c.dict, c.start, c.end, now, 1);
    assert forall k :: 0 <= k < |work| ==> work[k] in work;
    UniqueAdd(work, row);
    assert ChunkOf(row) !in counted by {
      assert !HasChunk(work, ChunkOf(row));
    }
    forall x | x in counted
      ensures HasChunk(work + [row], x)
    {
      var r :| r in work && ChunkOf(r) == x;
      assert r in work + [row];
    }
  }

  lemma GetWorkKeeps(s: Sys, now: int)
    requires Inv(s)
    ensures Inv(GetWorkStep(s, now).0)
  {
    hide IsChunk, NextChunk, FirstChunk, Unique, RowsOk, CountedOk, Lines;
    var work := Unexpired(s.db.work, now);
    DeletedWork(s, (r: Work) => !(now - r.last > EXPIRY && r.state == 1));
    var nets, d, oldest := Active(s.db.nets), Current(s.db.dicts), Oldest(work);
    if nets != [] && d.Some? {
      FirstChunkOk(work, s.db.dicts, nets, d.value);
      var c := FirstChunk(work, nets, d.value);
      if c.Some? {
        AssignKeeps(work, s.db.dicts, s.h.counted, c.value, now);
      } else if oldest.Some? {
        var s' := Sys(s.db.(work := work), s.h);
        OldestAlone(work, oldest.value);
        DeletedWork(s', (r: Work) => r.id != oldest.value.id);
        var freed := WithoutId(work, oldest.value.id);
        FirstChunkOk(freed, s.db.dicts, nets, d.value);
        var c := FirstChunk(freed, nets, d.value);
        if c.Some? {
          AssignKeeps(freed, s.db.dicts, s.h.counted, c.value, now);
        }
      }
    }
  }

  /** Deleting rows in state 1. */
  lemma DeletedWork(s: Sys, p: Work -> bool)
    requires Inv(s) && forall r :: r in s.db.work && r.state == 2 ==> p(r)
    ensures Inv(Sys(s.db.(work := Where(s.db.work, p)), s.h))
  {
    DeleteKeeps(s.db.work, s.db.dicts, s.h.counted, p, s.h.counted);
  }

  lemma OldestAlone(work: seq<Work>, o: Work)
    requires Unique(work) && o in work && o.state == 1
    ensures forall r :: r in work && r.state == 2 ==> r.id != o.id
  {
    var k :| 0 <= k < |work| && work[k] == o;
    forall r | r in work && r.state == 2
      ensures r.id != o.id
    {
      var j :| 0 <= j < |work| && work[j] == r;
      assert j < k ==> Apart(work[j], work[k]);
      assert k < j ==> Apart(work[k], work[j]);
    }
  }

  /** A report, as far as the work table goes. */
  lemma NotedKeeps(s: Sys, c: Chunk, now: int)
    requires Inv(s) && c in s.h.given
    ensures Inv(Noted(s, c, now))
  {
    hide IsChunk, ClosedOk, Lines;
    ReportMonotone(s.db.nets, s.db.dicts, s.h.reported, c);
    if HasChunk(s.db.work, c) {
      MarkedKeeps(s.db.work, s.db.dicts, s.h.counted, c);
    } else {
      AddedKeeps(s.db.work, s.db.dicts, s.h.counted, c, now);
    }
  }

  lemma ReportMonotone(nets: seq<Net>, dicts: seq<Dict>, reported: set<Chunk>, c: Chunk)
    requires ClosedOk(nets, dicts, reported)
    ensures ClosedOk(nets, dicts, reported + {c})
  {
    forall n | n in nets && n.state == 2 && n.pass.None?
      ensures GivenUp(dicts, reported + {c}, n.bssid)
    {
      assert GivenUp(dicts, reported, n.bssid);
      var d :| d in dicts && AllReported(reported, n.bssid, d.id, d.lines);
      assert forall k :: LineIn(reported, n.bssid, d.id, k) ==> LineIn(reported + {c}, n.bssid, d.id, k);
      assert AllReported(reported + {c}, n.bssid, d.id, d.lines);
    }
  }

  lemma MarkedKeeps(work: seq<Work>, dicts: seq<Dict>, counted: set<Chunk>, c: Chunk)
    requires Unique(work) && RowsOk(work, dicts) && CountedOk(work, counted) && HasChunk(work, c)
    ensures Unique(Marked(work, c)) && RowsOk(Marked(work, c), dicts) && CountedOk(Marked(work, c), counted + {c})
  {
    hide IsChunk, Lines, CountedOk, Marked;
    MarkedCounted(work, counted, c);
    forall r | r in Marked(work, c)
      ensures exists q :: q in work && (r == q || r == q.(state := 2))
    {
      var q := FromRow(work, c, r);
    }
  }

  /** Where a row comes from. */
  lemma FromRow(work: seq<Work>, c: Chunk, r: Work) returns (q: Work)
    requires r in Marked(work, c)
    ensures q in work && r == if ChunkOf(q) == c then q.(state := 2) else q
  {
    var w := Marked(work, c);
    var k :| 0 <= k < |w| && w[k] == r;
    q := work[k];
  }

  lemma MarkedCounted(work: seq<Work>, counted: set<Chunk>, c: Chunk)
    requires CountedOk(work, counted) && HasChunk(work, c)
    ensures CountedOk(Marked(work, c), counted + {c})
  {
    hide Marked;
    forall r | r in Marked(work, c)
      ensures r.state == 2 <==> ChunkOf(r) in counted + {c}
    {
      var q := FromRow(work, c, r);
    }
    forall x | x in counted + {c}
      ensures HasChunk(Marked(work, c), x)
    {
      var r :| r in work && ChunkOf(r) == x;
      var k :| 0 <= k < |work| && work[k] == r;
      assert ChunkOf(Marked(work, c)[k]) == x && Marked(work, c)[k] in Marked(work, c);
    }
  }

  lemma AddedKeeps(work: seq<Work>, dicts: seq<Dict>, counted: set<Chunk>, c: Chunk, now: int)
    requires Unique(work) && RowsOk(work, dicts) && CountedOk(work, counted) && !HasChunk(work, c)
    requires IsChunk(c.start, c.end, Lines(dicts, c.dict))
    ensures var w := work + [Work(NextId(work), c.net, c.dict, c.start, c.end, now, 2)];
            Unique(w) && RowsOk(w, dicts) && CountedOk(w, counted + {c})
  {
    hide Lines;
    var row := Work(NextId(work), c.net, c.dict, c.start, c.end, now, 2);
    forall k | 0 <= k < |work|
      ensures Apart(work[k], row)
    {
      assert work[k] in work && ChunkOf(work[k]) != c;
    }
    UniqueAdd(work, row);
    forall x | x in counted + {c}
      ensures HasChunk(work + [row], x)
    {
      if x == c {
        assert row in work + [row] && ChunkOf(row) == c;
      } else {
        var r :| r in work && ChunkOf(r) == x;
        assert r in work + [row];
      }
    }
  }

  /** net_done keeps the invariant if there is a password, or a whole dictionary has been reported. */
  lemma NetDoneKeeps(s: Sys, net: string, pass: Option<string>)
    requires Inv(s) && (pass.Some? || GivenUp(s.db.dicts, s.h.reported, net))
    ensures Inv(NetDone(s, net, pass))
  {
    hide GivenUp, IsChunk, Lines, SinceOk, ClosedOk;
    DeleteKeeps(s.db.work, s.db.dicts, s.h.counted, (r: Work) => r.net != net, Cleared(s.h.counted, net));
    ClosedSince(s.db.nets, s.h.since, s.h.counted, net, pass);
    ClosedGivenUp(s, net, pass);
  }

  lemma ClosedSince(nets: seq<Net>, since: set<Chunk>, counted: set<Chunk>, net: string, pass: Option<string>)
    requires SinceOk(nets, since, counted)
    ensures SinceOk(Closed(nets, net, pass), Cleared(since, net), Cleared(counted, net))
  {
    hide Closed;
    forall x
      ensures AlreadyDone(nets, x) ==> AlreadyDone(Closed(nets, net, pass), x)
    {
      FirstClosed(nets, net, pass, x);
    }
  }

  lemma ClosedGivenUp(s: Sys, net: string, pass: Option<string>)
    requires ClosedOk(s.db.nets, s.db.dicts, s.h.reported) && (pass.Some? || GivenUp(s.db.dicts, s.h.reported, net))
    ensures ClosedOk(Closed(s.db.nets, net, pass), s.db.dicts, s.h.reported)
  {
    hide GivenUp;
    var nets := Closed(s.db.nets, net, pass);
    forall n | n in nets && n.state == 2 && n.pass.None?
      ensures GivenUp(s.db.dicts, s.h.reported, n.bssid)
    {
      var k :| 0 <= k < |nets| && nets[k] == n;
      assert s.db.nets[k] in s.db.nets;
    }
  }

  // ------------------------------ the first row of a network

  lemma {:induction false} FirstAdded(nets: seq<Net>, x: Net, net: string)
    ensures FirstNet(nets + [x], net) ==
            if FirstNet(nets, net).Some? then FirstNet(nets, net) else if x.bssid == net then Some(x) else None
  {
    if nets != [] {
      assert (nets + [x])[1..] == nets[1..] + [x];
      FirstAdded(nets[1..], x, net);
    }
  }

  lemma RemovedLast(nets: seq<Net>, b: string)
    requires nets != []
    ensures var n := |nets| - 1;
            WithoutBssid(nets, b) == if nets[n].bssid == b then WithoutBssid(nets[..n], b) else WithoutBssid(nets[..n], b) + [nets[n]]
  {
  }

  lemma {:induction false} FirstRemoved(nets: seq<Net>, b: string, net: string)
    ensures FirstNet(WithoutBssid(nets, b), net) == if net == b then None else FirstNet(nets, net)
    decreases |nets|, 0
  {
    if nets != [] {
      FirstRemovedMore(nets[..|nets| - 1], nets[|nets| - 1], b, net);
      assert nets[..|nets| - 1] + [nets[|nets| - 1]] == nets;
    }
  }

  lemma FirstRemovedMore(nets: seq<Net>, x: Net, b: string, net: string)
    ensures FirstNet(WithoutBssid(nets + [x], b), net) == if net == b then None else FirstNet(nets + [x], net)
    decreases |nets|, 1
  {
    hide FirstNet, WithoutBssid;
    FirstRemoved(nets, b, net);
    RemovedLast(nets + [x], b);
    assert (nets + [x])[..|nets|] == nets;
    FirstAdded(nets, x, net);
    FirstAdded(WithoutBssid(nets, b), x, net);
  }

  lemma {:induction false} FirstClosed(nets: seq<Net>, b: string, pass: Option<string>, net: string)
    ensures AlreadyDone(Closed(nets, b, pass), net) <==> AlreadyDone(nets, net) || (net == b && FirstNet(nets, net).Some?)
    ensures FirstNet(Closed(nets, b, pass), net).Some? <==> FirstNet(nets, net).Some?
  {
    if nets != [] {
      assert Closed(nets, b, pass)[1..] == Closed(nets[1..], b, pass);
      FirstClosed(nets[1..], b, pass, net);
    }
  }

  /** Rows in state 2 that cover everything are reports that cover everything. */
  lemma CompleteReported(work: seq<Work>, counted: set<Chunk>, net: string, dict: string, lines: int)
    requires CountedOk(work, counted)
    ensures Complete(work, net, dict, lines) <==> AllReported(counted, net, dict, lines)
  {
    hide Where;
    forall n
      ensures Covers(Of(Done(work), net, dict), n) <==> LineIn(counted, net, dict, n)
    {
      if Covers(Of(Done(work), net, dict), n) {
        var r :| r in Of(Done(work), net, dict) && r.start <= n < r.end;
        assert r in work && ChunkOf(r) in counted;
      }
      if LineIn(counted, net, dict, n) {
        var c :| c in counted && c.net == net && c.dict == dict && c.start <= n < c.end;
        assert HasChunk(work, c);
        var r :| r in work && ChunkOf(r) == c;
        assert r in Of(Done(work), net, dict);
      }
    }
  }

  lemma ReportedSubset(a: set<Chunk>, b: set<Chunk>, dicts: seq<Dict>, net: string, dict: string)
    requires a <= b && DictsOk(dicts) && Lines(dicts, dict) > 0 && AllReported(a, net, dict, Lines(dicts, dict))
    ensures GivenUp(dicts, b, net)
  {
    assert forall n :: LineIn(a, net, dict, n) ==> LineIn(b, net, dict, n);
    KnownDict(dicts, dict);
    var d :| d in dicts && d.id == dict;
    assert AllReported(b, net, d.id, d.lines);
  }

  lemma {:induction false} KnownDict(dicts: seq<Dict>, id: string)
    requires Lines(dicts, id) > 0
    ensures exists d :: d in dicts && d.id == id
  {
    if dicts[0].id != id {
      KnownDict(dicts[1..], id);
      var d :| d in dicts[1..] && d.id == id;
      assert d in dicts;
    } else {
      assert dicts[0] in dicts;
    }
  }

  lemma ResultKeeps(s: Sys, c: Chunk, now: int)
    requires Inv(s) && c in s.h.given
    ensures Inv(ResultStep(s, c, now))
  {
    hide Lines, Complete, Unique, RowsOk, CountedOk, AlreadyDone, DictsOk, ClosedOk, Reported;
    ReportMonotone(s.db.nets, s.db.dicts, s.h.reported, c);
    if !AlreadyDone(s.db.nets, c.net) {
      NotedKeeps(s, c, now);
      var noted := Noted(s, c, now);
      if Complete(noted.db.work, c.net, c.dict, Lines(s.db.dicts, c.dict)) {
        CompleteReported(noted.db.work, noted.h.counted, c.net, c.dict, Lines(s.db.dicts, c.dict));
        ReportedSubset(noted.h.counted, noted.h.reported, s.db.dicts, c.net, c.dict);
        NetDoneKeeps(noted, c.net, None);
      }
    }
  }

  /** A new or another current dictionary does not change the size of any. */
  lemma DictsChanged(s: Sys, dicts: seq<Dict>)
    requires Inv(s) && DictsOk(dicts)
    requires forall id :: Lines(s.db.dicts, id) != 0 ==> Lines(dicts, id) == Lines(s.db.dicts, id)
    ensures Inv(s.(db := s.db.(dicts := dicts)))
  {
    hide Lines, Unique, CountedOk;
    assert RowsOk(s.db.work, dicts) by {
      forall r | r in s.db.work
        ensures IsChunk(r.start, r.end, Lines(dicts, r.dict))
      {
        assert IsChunk(r.start, r.end, Lines(s.db.dicts, r.dict));
      }
    }
    forall n | n in s.db.nets && n.state == 2 && n.pass.None?
      ensures GivenUp(dicts, s.h.reported, n.bssid)
    {
      assert GivenUp(s.db.dicts, s.h.reported, n.bssid);
      var d :| d in s.db.dicts && AllReported(s.h.reported, n.bssid, d.id, d.lines);
      ReportedSubset(s.h.reported, s.h.reported, dicts, n.bssid, d.id);
    }
  }

  lemma UploadKeeps(s: Sys, id: string, lines: nat)
    requires Inv(s) && Allowed(s, Upload(id, lines))
    ensures Inv(Step(s, Upload(id, lines)))
  {
    hide Unique, CountedOk, RowsOk, ChunksOk, ClosedOk;
    var d := Dict(id, lines, false);
    var dicts := s.db.dicts + [d];
    forall id'
      ensures Lines(dicts, id') == if (exists x :: x in s.db.dicts && x.id == id') then Lines(s.db.dicts, id') else if id == id' then lines else 0
    {
      LinesAdd(s.db.dicts, d, id');
    }
    forall id' | Lines(s.db.dicts, id') != 0
      ensures exists x :: x in s.db.dicts && x.id == id'
    {
      Unknown(s.db.dicts, id');
    }
    DictsChanged(s, dicts);
  }

  lemma {:induction false} Unknown(dicts: seq<Dict>, id: string)
    ensures Lines(dicts, id) != 0 ==> exists x :: x in dicts && x.id == id
  {
    if dicts != [] {
      Unknown(dicts[1..], id);
      assert forall x :: x in dicts[1..] ==> x in dicts;
      assert dicts[0] in dicts;
    }
  }

  lemma SetDictKeeps(s: Sys, id: string)
    requires Inv(s)
    ensures Inv(Step(s, SetDict(id)))
  {
    hide Unique, CountedOk, RowsOk, ChunksOk, ClosedOk, Lines;
    var dicts := SetCurrent(s.db.dicts, id);
    forall id'
      ensures Lines(dicts, id') == Lines(s.db.dicts, id')
    {
      LinesSetCurrent(s.db.dicts, id, id');
    }
    forall d | d in dicts
      ensures d.lines > 0 && d.lines == Lines(dicts, d.id)
    {
      var k :| 0 <= k < |dicts| && dicts[k] == d;
      assert s.db.dicts[k] in s.db.dicts;
    }
    DictsChanged(s, dicts);
  }

  lemma RemoveKeeps(s: Sys, bssid: string)
    requires Inv(s)
    ensures Inv(Step(s, Remove(bssid)))
  {
    hide IsChunk, Lines;
    DeleteKeeps(s.db.work, s.db.dicts, s.h.counted, (r: Work) => r.net != bssid, Cleared(s.h.counted, bssid));
    forall x
      ensures FirstNet(WithoutBssid(s.db.nets, bssid), x) == if x == bssid then None else FirstNet(s.db.nets, x)
    {
      FirstRemoved(s.db.nets, bssid, x);
    }
  }

  lemma CrackKeeps(s: Sys, bssid: string)
    requires Inv(s)
    ensures Inv(Step(s, Crack(bssid)))
  {
    hide IsChunk, Lines, Unique, RowsOk, CountedOk, ChunksOk, GivenUp;
    forall x
      ensures AlreadyDone(s.db.nets + [Net(bssid, None, 1)], x) <==> AlreadyDone(s.db.nets, x)
    {
      FirstAdded(s.db.nets, Net(bssid, None, 1), x);
    }
  }

  /** Each request keeps the invariant. */
  lemma StepKeeps(s: Sys, op: Op)
    requires Inv(s) && Allowed(s, op)
    ensures Inv(Step(s, op))
  {
    hide Inv, IsChunk, Lines;
    match op
    case Upload(id, lines) => UploadKeeps(s, id, lines);
    case SetDict(id) => SetDictKeeps(s, id);
    case Crack(bssid) => CrackKeeps(s, bssid);
    case Remove(bssid) => RemoveKeeps(s, bssid);
    case GetWork(now) => GetWorkKeeps(s, now);
    case Result(c, now) => ResultKeeps(s, c, now);
    case Password(bssid, pass, found) => if found { NetDoneKeeps(s, bssid, Some(pass)); }
  }
}
