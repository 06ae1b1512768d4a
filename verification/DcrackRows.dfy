/** What each request does to the rows of the tables, said without the queries it is made of. */
module DcrackRows {
  import opened Options
  import opened DcrackTables
  import opened DcrackRuns
  import opened DcrackProperties

  /** Reported, or assigned at most an hour ago. */
  predicate Busy(r: Work, now: int) {
    r.state == 2 || now - r.last <= 3600
  }

  /** Line k is searched or has been searched for the network. */
  predicate BusyLine(work: seq<Work>, net: string, dict: string, k: int, now: int) {
    exists r :: r in work && Busy(r, now) && r.net == net && r.dict == dict && r.start <= k < r.end
  }

  /** ... and so is every line of the dictionary for every active network. */
  ghost predicate AllBusy(db: Db, d: Dict, now: int) {
    forall n, k :: n in db.nets && n.state == 1 && 0 <= k < d.lines ==> BusyLine(db.work, n.bssid, d.id, k, now)
  }

  lemma UnexpiredRows(work: seq<Work>, dicts: seq<Dict>, now: int)
    requires RowsOk(work, dicts)
    ensures forall r :: r in Unexpired(work, now) <==> r in work && Busy(r, now)
  {
    hide IsChunk, Lines;
  }

  lemma CoversBusy(work: seq<Work>, dicts: seq<Dict>, net: string, dict: string, k: int, now: int)
    requires RowsOk(work, dicts)
    ensures Covers(Of(Unexpired(work, now), net, dict), k) <==> BusyLine(work, net, dict, k, now)
  {
    hide IsChunk, Lines, Unexpired, Busy;
    UnexpiredRows(work, dicts, now);
    var rows := Of(Unexpired(work, now), net, dict);
    if BusyLine(work, net, dict, k, now) {
      var r :| r in work && Busy(r, now) && r.net == net && r.dict == dict && r.start <= k < r.end;
      assert r in rows;
    }
  }

  /** No free line is left exactly if every line is busy. */
  lemma NoneFree(s: Sys, d: Dict, now: int)
    requires Inv(s) && d in s.db.dicts
    ensures (forall n :: n in Active(s.db.nets) ==> NextChunk(Unexpired(s.db.work, now), n.bssid, d).None?) <==> AllBusy(s.db, d, now)
  {
    hide IsChunk, Lines, Unexpired, BusyLine, Of, Covers;
    var work := Unexpired(s.db.work, now);
    forall n, k
      ensures Covers(Of(work, n, d.id), k) <==> BusyLine(s.db.work, n, d.id, k, now)
    {
      CoversBusy(s.db.work, s.db.dicts, n, d.id, k, now);
    }
    DictLines(s, d);
  }

  lemma DictLines(s: Sys, d: Dict)
    requires Inv(s) && d in s.db.dicts
    ensures d.lines > 0
  {
    hide Lines;
  }

  /** The three ways a request for work ends. */
  datatype Outcome = Nothing | Free(c: Chunk) | Again(o: Work)

  /** Free: a chunk of free lines; Again: the oldest assigned row, when every line is busy. */
  lemma Outcomes(s: Sys, now: int) returns (x: Outcome)
    requires Inv(s)
    ensures var work := Unexpired(s.db.work, now);
            match x
            case Nothing => GetWorkStep(s, now) == (Sys(s.db.(work := work), s.h), None)
            case Free(c) => GetWorkStep(s, now) == (HandOut(s, work, c, now), Some(c)) &&
                            Current(s.db.dicts).Some? && FirstChunk(work, Active(s.db.nets), Current(s.db.dicts).value) == Some(c)
            case Again(o) => GetWorkStep(s, now) == (HandOut(s, WithoutId(work, o.id), ChunkOf(o), now), Some(ChunkOf(o))) &&
                             Oldest(work) == Some(o) && Current(s.db.dicts).Some? && AllBusy(s.db, Current(s.db.dicts).value, now) &&
                             HasActive(s.db.nets, o.net) && o.dict == Current(s.db.dicts).value.id
  {
    hide Inv, Unexpired, Oldest, WithoutId, HandOut, AllBusy, FirstChunk, NextChunk, HasActive;
    var work, nets, d := Unexpired(s.db.work, now), Active(s.db.nets), Current(s.db.dicts);
    x := Nothing;
    if nets != [] && d.Some? {
      var c := FirstChunk(work, nets, d.value);
      if c.Some? {
        x := Free(c.value);
      } else if Oldest(work).Some? {
        UnexpiredOk(s, now);
        FirstChunkOk(work, s.db.dicts, nets, d.value);
        NoneFree(s, d.value, now);
        ForcedReassignment(s, now, d.value, Oldest(work).value);
        if GetWorkStep(s, now).1.Some? {
          x := Again(Oldest(work).value);
        }
      }
    }
  }

  lemma UnexpiredOk(s: Sys, now: int)
    requires Inv(s)
    ensures Unique(Unexpired(s.db.work, now)) && RowsOk(Unexpired(s.db.work, now), s.db.dicts) && DictsOk(s.db.dicts)
  {
    hide IsChunk, Lines;
    UniqueWhere(s.db.work, (r: Work) => !(now - r.last > EXPIRY && r.state == 1));
  }

  /** The rows after a request for work: nobody's report goes; assignments older than an hour go; a
      younger one goes only if it is the oldest there is, every line is busy, and it is handed out again;
      and what is handed out gets the only new row. */
  lemma GetWorkRows(s: Sys, now: int)
    requires Inv(s)
    ensures var work, c := GetWorkStep(s, now).0.db.work, GetWorkStep(s, now).1;
            && (forall r :: r in work && r.state == 1 ==> now - r.last <= 3600)
            && (forall r :: r in work ==> r in s.db.work || IsNew(r, c, now))
            && (c.Some? ==> exists r :: r in work && IsNew(r, c, now))
            && (forall r :: r in s.db.work && Busy(r, now) ==> r in work || GivenAgain(s, r, c, now))
  {
    hide Inv, AllBusy, IsChunk, Lines, Oldest, Unexpired, WithoutId;
    var work := Unexpired(s.db.work, now);
    var x := Outcomes(s, now);
    InvRows(s);
    UnexpiredRows(s.db.work, s.db.dicts, now);
    match x
    case Nothing =>
    case Free(c) =>
      NewRow(work, c, now);
    case Again(o) =>
      NewRow(WithoutId(work, o.id), ChunkOf(o), now);
      InvUnique(s);
      Forgotten(s.db.work, work, o, now);
  }

  lemma InvRows(s: Sys)
    requires Inv(s)
    ensures RowsOk(s.db.work, s.db.dicts)
    ensures forall r :: r in s.db.work ==> r.state == 1 || r.state == 2
  {
    hide IsChunk, Lines;
  }

  lemma InvUnique(s: Sys)
    requires Inv(s)
    ensures Unique(s.db.work)
  {
  }

  /** The row of what has just been handed out. */
  predicate IsNew(r: Work, c: Option<Chunk>, now: int) {
    c == Some(ChunkOf(r)) && r.state == 1 && r.last == now
  }

  /** Row r was the oldest of the assigned ones, every line is busy, and its chunk is handed out again. */
  ghost predicate GivenAgain(s: Sys, r: Work, c: Option<Chunk>, now: int) {
    && r.state == 1 && c == Some(ChunkOf(r)) && (forall q :: q in s.db.work && q.state == 1 && Busy(q, now) ==> r.last <= q.last)
    && Current(s.db.dicts).Some? && AllBusy(s.db, Current(s.db.dicts).value, now)
  }

  lemma NewRow(work: seq<Work>, c: Chunk, now: int)
    ensures forall r :: r in Assigned(work, c, now) <==> r in work || r == Work(NextId(work), c.net, c.dict, c.start, c.end, now, 1)
    ensures exists r :: r in Assigned(work, c, now) && IsNew(r, Some(c), now)
  {
    var row := Work(NextId(work), c.net, c.dict, c.start, c.end, now, 1);
    assert row in Assigned(work, c, now) && IsNew(row, Some(c), now);
  }

  lemma Forgotten(all: seq<Work>, work: seq<Work>, o: Work, now: int)
    requires Unique(all) && o in work && o.state == 1 && forall r :: r in work <==> r in all && Busy(r, now)
    requires Oldest(work) == Some(o)
    ensures forall r :: r in WithoutId(work, o.id) <==> r in work && r != o
    ensures forall q :: q in all && q.state == 1 && Busy(q, now) ==> o.last <= q.last
  {
    forall r | r in work && r.id == o.id
      ensures r == o
    {
      SameId(all, r, o);
    }
  }

  /** A chunk of which a row is younger than an hour is handed out again only if every line is busy. */
  lemma HandedAgain(s: Sys, now: int, r: Work)
    requires Inv(s) && r in s.db.work && Busy(r, now) && GetWorkStep(s, now).1 == Some(ChunkOf(r))
    ensures Current(s.db.dicts).Some? && AllBusy(s.db, Current(s.db.dicts).value, now)
  {
    hide Inv, AllBusy, IsChunk, Lines, Oldest, Unexpired, WithoutId;
    var x := Outcomes(s, now);
    if x.Free? {
      InvRows(s);
      UnexpiredRows(s.db.work, s.db.dicts, now);
      UnexpiredOk(s, now);
      FirstChunkOk(Unexpired(s.db.work, now), s.db.dicts, Active(s.db.nets), Current(s.db.dicts).value);
    }
  }

  /** Otherwise it is a stretch of 5,000,000 lines, or the last lines, that begins at the first line
      which is not busy, and none of its lines is. */
  lemma HandedFree(s: Sys, now: int)
    requires Inv(s) && Current(s.db.dicts).Some? && !AllBusy(s.db, Current(s.db.dicts).value, now)
    ensures GetWorkStep(s, now).1.Some?
    ensures var c, d := GetWorkStep(s, now).1.value, Current(s.db.dicts).value;
            && c.dict == d.id && HasActive(s.db.nets, c.net)
            && 0 <= c.start < d.lines && c.end == ChunkEnd(c.start, d.lines)
            && (forall k :: 0 <= k < c.start ==> BusyLine(s.db.work, c.net, d.id, k, now))
            && (forall k :: c.start <= k < c.end ==> !BusyLine(s.db.work, c.net, d.id, k, now))
  {
    hide Inv, AllBusy, IsChunk, Lines, Oldest, Unexpired, WithoutId, NextChunk, BusyLine, Of, Covers, HasActive;
    var work, d := Unexpired(s.db.work, now), Current(s.db.dicts).value;
    var x := Outcomes(s, now);
    UnexpiredOk(s, now);
    InvRows(s);
    NoneFree(s, d, now);
    FirstChunkOk(work, s.db.dicts, Active(s.db.nets), d);
    assert Active(s.db.nets) != [] ==> FirstChunk(work, Active(s.db.nets), d).Some?;
    HandedToActive(s, now);
    var n :| n in Active(s.db.nets) && NextChunk(work, n.bssid, d) == FirstChunk(work, Active(s.db.nets), d);
    UnexpiredInv(s, now);
    NextChunkLeast(Sys(s.db.(work := work), s.h), n.bssid, d);
    NextChunkSize(work, n.bssid, d);
    forall k
      ensures Covers(Of(work, n.bssid, d.id), k) <==> BusyLine(s.db.work, n.bssid, d.id, k, now)
    {
      CoversBusy(s.db.work, s.db.dicts, n.bssid, d.id, k, now);
    }
  }

  lemma UnexpiredInv(s: Sys, now: int)
    requires Inv(s)
    ensures Inv(Sys(s.db.(work := Unexpired(s.db.work, now)), s.h))
  {
    DeletedWork(s, (r: Work) => !(now - r.last > EXPIRY && r.state == 1));
  }

  lemma NextChunkSize(work: seq<Work>, net: string, d: Dict)
    requires NextChunk(work, net, d).Some?
    ensures var c := NextChunk(work, net, d).value;
            c.net == net && c.dict == d.id && 0 <= c.start < d.lines && c.end == ChunkEnd(c.start, d.lines)
  {
    hide Of;
  }

  // ---------------------------------------------------------------- the other requests

  /** Removing a network leaves nothing of it, and everything else. */
  lemma RemoveRows(s: Sys, b: string)
    ensures var db := Step(s, Remove(b)).db;
            && db.dicts == s.db.dicts
            && (forall r :: r in db.work <==> r in s.db.work && r.net != b)
            && (forall n :: n in db.nets <==> n in s.db.nets && n.bssid != b)
  {
  }

  /** A report touches the row of its chunk only, which is in state 2 afterwards, unless it closes the
      network: then all its work goes. */
  lemma ResultRows(s: Sys, c: Chunk, now: int)
    requires Inv(s) && c in s.h.given && !AlreadyDone(s.db.nets, c.net)
    ensures var work := ResultStep(s, c, now).db.work;
            if AllReported(s.h.since + {c}, c.net, c.dict, Lines(s.db.dicts, c.dict)) then
              forall r :: r in work <==> r in s.db.work && r.net != c.net
            else
              && (forall r :: ChunkOf(r) != c ==> (r in work <==> r in s.db.work))
              && (exists r :: r in work && ChunkOf(r) == c) && (forall r :: r in work && ChunkOf(r) == c ==> r.state == 2)
  {
    hide Inv, Lines, AllReported, Reported;
    ResultCases(s, c, now);
    ReportedRows(s.db.work, c, now);
  }

  lemma ReportedRows(work: seq<Work>, c: Chunk, now: int)
    ensures var w := Reported(work, c, now);
            && (forall r :: ChunkOf(r) != c ==> (r in w <==> r in work))
            && (exists r :: r in w && ChunkOf(r) == c) && (forall r :: r in w && ChunkOf(r) == c ==> r.state == 2)
  {
    hide Marked;
    var w := Reported(work, c, now);
    forall r | ChunkOf(r) != c && r in work
      ensures r in w
    {
      var k :| 0 <= k < |work| && work[k] == r;
      if HasChunk(work, c) {
        assert w[k] == r;
      }
    }
    if HasChunk(work, c) {
      var q :| q in work && ChunkOf(q) == c;
      var k :| 0 <= k < |work| && work[k] == q;
      assert w[k] in w && ChunkOf(w[k]) == c;
    } else {
      assert w[|work|] in w && ChunkOf(w[|work|]) == c;
    }
  }

  /** A network asked for gets one more row, which is active and has no password. */
  lemma CrackRows(s: Sys, b: string)
    ensures var db := Step(s, Crack(b)).db;
            && db.dicts == s.db.dicts && db.work == s.db.work && |db.nets| == |s.db.nets| + 1
            && forall n :: n in db.nets <==> n in s.db.nets || n == Net(b, None, 1)
  {
  }

  /** A confirmed password closes every row of the network, and no other row. */
  lemma PasswordRows(s: Sys, b: string, pass: string, k: nat)
    requires k < |s.db.nets|
    ensures var db := Step(s, Password(b, pass, true)).db;
            && |db.nets| == |s.db.nets| && (forall r :: r in db.work <==> r in s.db.work && r.net != b)
            && db.nets[k] == if s.db.nets[k].bssid == b then Net(b, Some(pass), 2) else s.db.nets[k]
  {
  }

  function ChunkEnd(start: int, lines: int): int {
    if start + 5000000 <= lines then start + 5000000 else lines
  }

  /** Every row is a chunk of 5,000,000 lines, or what is left at the end. */
  lemma ChunkSizes(s: Sys, r: Work)
    requires Inv(s) && r in s.db.work
    ensures r.start % 5000000 == 0
    ensures exists d :: d in s.db.dicts && d.id == r.dict && 0 <= r.start < d.lines && r.end == ChunkEnd(r.start, d.lines)
  {
    KnownLines(s.db.dicts, r.dict);
  }

  lemma {:induction false} KnownLines(dicts: seq<Dict>, id: string)
    requires Lines(dicts, id) > 0
    ensures exists d :: d in dicts && d.id == id && d.lines == Lines(dicts, id)
  {
    if dicts[0].id == id {
      assert dicts[0] in dicts;
    } else {
      KnownLines(dicts[1..], id);
      assert forall d :: d in dicts[1..] ==> d in dicts;
    }
  }
}
