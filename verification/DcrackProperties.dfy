/** What holds in every run of the coordinator: chunks do not overlap, which report closes a network,
    what is handed out again, and what goes wrong when a closed network is asked for again. */
module DcrackProperties {
  import opened Options
  import opened DcrackTables
  import opened DcrackRuns

  // ---------------------------------------------------------------- all runs

  predicate Legal(s: Sys, ops: seq<Op>)
    decreases |ops|
  {
    ops == [] || (Allowed(s, ops[0]) && Legal(Step(s, ops[0]), ops[1..]))
  }

  /** The state after these requests. */
  function Run(s: Sys, ops: seq<Op>): Sys
    decreases |ops|
  {
    if ops == [] then s else Run(Step(s, ops[0]), ops[1..])
  }

  lemma {:induction false} RunKeeps(s: Sys, ops: seq<Op>)
    requires Inv(s) && Legal(s, ops)
    ensures Inv(Run(s, ops))
    decreases |ops|
  {
    hide Inv, Allowed, Step;
    if ops != [] {
      StepKeeps(s, ops[0]);
      RunKeeps(Step(s, ops[0]), ops[1..]);
    }
  }

  lemma InitOk()
    ensures Inv(Init())
  {
  }

  /** No line of a dictionary is in two rows of the same network. */
  ghost predicate NoOverlap(work: seq<Work>) {
    forall i, j :: 0 <= i < j < |work| && work[i].net == work[j].net && work[i].dict == work[j].dict ==>
      work[i].end <= work[j].start || work[j].end <= work[i].start
  }

  lemma InvNoOverlap(s: Sys)
    requires Inv(s)
    ensures NoOverlap(s.db.work)
  {
    hide Lines, IsChunk;
    var work := s.db.work;
    forall i, j | 0 <= i < j < |work| && work[i].net == work[j].net && work[i].dict == work[j].dict
      ensures work[i].end <= work[j].start || work[j].end <= work[i].start
    {
      assert Apart(work[i], work[j]) && work[i] in work && work[j] in work;
      ChunkGap(work[i].start, work[i].end, work[j].start, work[j].end, Lines(s.db.dicts, work[i].dict));
    }
  }

  /** In every state that any run reaches, the rows of a network and dictionary are disjoint chunks,
      and a network closed without a password has had every line of some dictionary reported. */
  lemma RunSafe(ops: seq<Op>)
    requires Legal(Init(), ops)
    ensures var s := Run(Init(), ops);
            && NoOverlap(s.db.work)
            && RowsOk(s.db.work, s.db.dicts)
            && forall n :: n in s.db.nets && n.state == 2 && n.pass.None? ==> GivenUp(s.db.dicts, s.h.reported, n.bssid)
  {
    hide Legal, Run;
    InitOk();
    RunKeeps(Init(), ops);
    InvNoOverlap(Run(Init(), ops));
  }

  /** What try_network picks in any reachable state: a range of lines none of which is covered, that
      begins at the least uncovered line; and nothing exactly when every line is covered. */
  lemma NextChunkLeast(s: Sys, net: string, d: Dict)
    requires Inv(s) && d in s.db.dicts
    ensures var c, rows := NextChunk(s.db.work, net, d), Of(s.db.work, net, d.id);
            && (c.None? <==> forall n :: 0 <= n < d.lines ==> Covers(rows, n))
            && (c.Some? ==> c.value.start < c.value.end && (forall n :: 0 <= n < c.value.start ==> Covers(rows, n)) &&
                            forall n :: c.value.start <= n < c.value.end ==> !Covers(rows, n))
  {
    hide Lines;
    var c, rows := NextChunk(s.db.work, net, d), Of(s.db.work, net, d.id);
    NextChunkOk(s.db.work, s.db.dicts, net, d);
    if c.Some? {
      forall r | r in rows
        ensures r.end <= c.value.start || c.value.end <= r.start
      {
        assert IsChunk(r.start, r.end, d.lines) && r.start != c.value.start;
        ChunkGap(r.start, r.end, c.value.start, c.value.end, d.lines);
      }
    }
  }

  /** The network still has a row that work is handed out for. */
  predicate HasActive(nets: seq<Net>, net: string) {
    exists n :: n in nets && n.bssid == net && n.state == 1
  }

  /** Which report ends the search of an active network: the one after which the reports since the
      network's work was last deleted cover the whole dictionary, and no other; but none at all if the
      network's first row has been closed before. */
  lemma ResultCloses(s: Sys, c: Chunk, now: int)
    requires Inv(s) && c in s.h.given && HasActive(s.db.nets, c.net)
    ensures !HasActive(ResultStep(s, c, now).db.nets, c.net) <==>
            !AlreadyDone(s.db.nets, c.net) && AllReported(s.h.since + {c}, c.net, c.dict, Lines(s.db.dicts, c.dict))
  {
    hide Lines, Reported, Complete, AllReported, Inv;
    ResultCases(s, c, now);
    if !AlreadyDone(s.db.nets, c.net) {
      EndedBy(s.db.nets, c.net, None);
    }
  }

  /** What a report does: nothing to the tables if the first row of its network is closed, close the
      network if the dictionary is complete, be written down otherwise. */
  lemma ResultCases(s: Sys, c: Chunk, now: int)
    requires Inv(s) && c in s.h.given
    ensures var all := AllReported(s.h.since + {c}, c.net, c.dict, Lines(s.db.dicts, c.dict));
            && (AlreadyDone(s.db.nets, c.net) ==> ResultStep(s, c, now).db == s.db)
            && (!AlreadyDone(s.db.nets, c.net) && all ==> ResultStep(s, c, now) == NetDone(Noted(s, c, now), c.net, None))
            && (!AlreadyDone(s.db.nets, c.net) && !all ==> ResultStep(s, c, now) == Noted(s, c, now))
  {
    hide Lines, Reported, Complete, AllReported;
    NotedKeeps(s, c, now);
    if !AlreadyDone(s.db.nets, c.net) {
      CompleteReported(Noted(s, c, now).db.work, s.h.counted + {c}, c.net, c.dict, Lines(s.db.dicts, c.dict));
      SameReports(s.h.since + {c}, s.h.counted + {c}, c.net, c.dict, Lines(s.db.dicts, c.dict));
    }
  }

  lemma SameReports(a: set<Chunk>, b: set<Chunk>, net: string, dict: string, lines: int)
    requires b <= a && forall x :: x in a && x.net == net ==> x in b
    ensures AllReported(a, net, dict, lines) <==> AllReported(b, net, dict, lines)
  {
    assert forall n :: LineIn(a, net, dict, n) <==> LineIn(b, net, dict, n);
  }

  /** net_done leaves no active row, and no other network's rows change. */
  lemma EndedBy(nets: seq<Net>, net: string, pass: Option<string>)
    ensures !HasActive(Closed(nets, net, pass), net)
    ensures forall b :: b != net ==> (HasActive(Closed(nets, net, pass), b) <==> HasActive(nets, b))
  {
    var after := Closed(nets, net, pass);
    forall b | b != net
      ensures HasActive(after, b) <==> HasActive(nets, b)
    {
      if HasActive(nets, b) {
        var n :| n in nets && n.bssid == b && n.state == 1;
        var k :| 0 <= k < |nets| && nets[k] == n;
        assert after[k] in after;
      }
      if HasActive(after, b) {
        var n :| n in after && n.bssid == b && n.state == 1;
        var k :| 0 <= k < |after| && after[k] == n;
        assert nets[k] in nets;
      }
    }
  }

  /** A network whose first row is closed while another is active: `crack` on a closed network. No
      report changes a table, and only `remove` or a confirmed password ends the active row. */
  lemma StuckStep(s: Sys, op: Op, net: string)
    requires AlreadyDone(s.db.nets, net) && HasActive(s.db.nets, net)
    ensures var s' := Step(s, op);
            && (HasActive(s'.db.nets, net) <==> !Ends(op, net))
            && (!Ends(op, net) ==> AlreadyDone(s'.db.nets, net))
            && (op.Result? && op.chunk.net == net ==> s'.db == s.db)
  {
    hide Complete, Reported, FirstChunk, FirstNet;
    match op
    case Crack(b) =>
      FirstAdded(s.db.nets, Net(b, None, 1), net);
      StillActive(s.db.nets, s.db.nets + [Net(b, None, 1)], net);
    case Remove(b) =>
      FirstRemoved(s.db.nets, b, net);
      if b != net { StillActive(s.db.nets, WithoutBssid(s.db.nets, b), net); }
    case Result(c, now) =>
      EndedBy(s.db.nets, c.net, None);
      FirstClosed(s.db.nets, c.net, None, net);
    case Password(b, pass, found) =>
      EndedBy(s.db.nets, b, Some(pass));
      FirstClosed(s.db.nets, b, Some(pass), net);
    case _ =>
  }

  lemma StillActive(nets: seq<Net>, nets': seq<Net>, net: string)
    requires HasActive(nets, net) && forall n :: n in nets && n.bssid == net ==> n in nets'
    ensures HasActive(nets', net)
  {
  }

  /** The requests that end all rows of a network whose first row is closed. */
  predicate Ends(op: Op, net: string) {
    (op.Remove? && op.bssid == net) || (op.Password? && op.bssid == net && op.found)
  }

  /** However long it goes on: without those requests the row stays active and no report counts. */
  lemma {:induction false} StuckForever(s: Sys, ops: seq<Op>, net: string)
    requires AlreadyDone(s.db.nets, net) && HasActive(s.db.nets, net) && forall op :: op in ops ==> !Ends(op, net)
    ensures AlreadyDone(Run(s, ops).db.nets, net) && HasActive(Run(s, ops).db.nets, net)
    decreases |ops|
  {
    hide Step, Ends, HasActive, AlreadyDone;
    if ops != [] {
      assert ops[0] in ops && forall op :: op in ops[1..] ==> op in ops;
      StuckStep(s, ops[0], net);
      StuckForever(Step(s, ops[0]), ops[1..], net);
    }
  }

  /** When every line of every active network is handed out, the chunk that has waited longest is
      handed out again, if its network is active and its dictionary the current one; otherwise nothing
      is, whatever other chunks are waiting. */
  lemma ForcedReassignment(s: Sys, now: int, d: Dict, o: Work)
    requires Inv(s) && Current(s.db.dicts) == Some(d)
    requires forall n :: n in Active(s.db.nets) ==> NextChunk(Unexpired(s.db.work, now), n.bssid, d).None?
    requires Oldest(Unexpired(s.db.work, now)) == Some(o)
    ensures GetWorkStep(s, now).1 == if HasActive(s.db.nets, o.net) && o.dict == d.id then Some(ChunkOf(o)) else None
  {
    hide Lines, Current, Oldest;
    var work, nets := Unexpired(s.db.work, now), Active(s.db.nets);
    var s' := Sys(s.db.(work := work), s.h);
    DeletedWork(s, (r: Work) => !(now - r.last > EXPIRY && r.state == 1));
    FirstChunkOk(work, s.db.dicts, nets, d);
    var freed := WithoutId(work, o.id);
    OldestAlone(work, o);
    DeletedWork(s', (r: Work) => r.id != o.id);
    forall n | n in nets
      ensures NextChunk(freed, n.bssid, d) == if n.bssid == o.net && o.dict == d.id then Some(ChunkOf(o)) else None
    {
      assert NextChunk(work, n.bssid, d).None?;
      if o.dict == d.id {
        Freed(s', o, n.bssid, d);
      } else {
        NotFreed(s', o, n.bssid, d);
      }
    }
    FirstChunkOk(freed, s.db.dicts, nets, d);
  }

  /** Deleting a row of another dictionary frees nothing. */
  lemma NotFreed(s: Sys, o: Work, net: string, d: Dict)
    requires Inv(s) && o in s.db.work && o.dict != d.id && NextChunk(s.db.work, net, d).None?
    ensures NextChunk(WithoutId(s.db.work, o.id), net, d).None?
  {
    var work, freed := s.db.work, WithoutId(s.db.work, o.id);
    forall n | 0 <= n < d.lines
      ensures Covers(Of(freed, net, d.id), n)
    {
      assert Covers(Of(work, net, d.id), n);
      var r :| r in Of(work, net, d.id) && r.start <= n < r.end;
      if r.id == o.id {
        SameId(work, r, o);
      }
      assert r in Of(freed, net, d.id);
    }
  }

  /** Deleting one row frees exactly its lines. */
  lemma Freed(s: Sys, o: Work, net: string, d: Dict)
    requires Inv(s) && o in s.db.work && d in s.db.dicts && o.dict == d.id
    requires NextChunk(s.db.work, net, d).None?
    ensures NextChunk(WithoutId(s.db.work, o.id), net, d) == if net == o.net then Some(ChunkOf(o)) else None
  {
    hide Lines, Inv;
    var work := s.db.work;
    var freed := WithoutId(work, o.id);
    var i := FirstFree(Of(freed, net, d.id), 0, d.lines);
    forall n | 0 <= n < d.lines
      ensures Covers(Of(freed, net, d.id), n) <==> !(net == o.net && o.start <= n < o.end)
    {
      assert Covers(Of(work, net, d.id), n);
      FreedLine(s, o, net, d, n);
    }
    InvChunk(s, o, d);
    if net == o.net {
      assert !Covers(Of(freed, net, d.id), o.start);
      assert i < o.start ==> Covers(Of(freed, net, d.id), i);
    }
  }

  lemma InvChunk(s: Sys, o: Work, d: Dict)
    requires Inv(s) && o in s.db.work && d in s.db.dicts && o.dict == d.id
    ensures IsChunk(o.start, o.end, d.lines) && d.lines == Lines(s.db.dicts, d.id) > 0
  {
    hide Lines, IsChunk;
  }

  lemma FreedLine(s: Sys, o: Work, net: string, d: Dict, n: int)
    requires Inv(s) && o in s.db.work && d in s.db.dicts && o.dict == d.id
    requires Covers(Of(s.db.work, net, d.id), n)
    ensures Covers(Of(WithoutId(s.db.work, o.id), net, d.id), n) <==> !(net == o.net && o.start <= n < o.end)
  {
    hide Lines, IsChunk;
    var work := s.db.work;
    var freed := WithoutId(work, o.id);
    var r :| r in Of(work, net, d.id) && r.start <= n < r.end;
    if net == o.net && o.start <= n < o.end {
      forall x | x in Of(freed, net, d.id)
        ensures !(x.start <= n < x.end)
      {
        RowsApart(s, x, o, d);
      }
    } else {
      if r.id == o.id {
        SameId(work, r, o);
      }
      assert r in Of(freed, net, d.id);
    }
  }

  lemma SameId(work: seq<Work>, a: Work, b: Work)
    requires Unique(work) && a in work && b in work && a.id == b.id
    ensures a == b
  {
    var i :| 0 <= i < |work| && work[i] == a;
    var j :| 0 <= j < |work| && work[j] == b;
    assert work[i].id == work[j].id;
  }

  lemma RowsApart(s: Sys, a: Work, b: Work, d: Dict)
    requires Inv(s) && a in s.db.work && b in s.db.work && a.id != b.id
    requires a.net == b.net && a.dict == b.dict == d.id && d in s.db.dicts
    ensures a.end <= b.start || b.end <= a.start
  {
    hide Lines, IsChunk;
    InvNoOverlap(s);
    var work := s.db.work;
    var i :| 0 <= i < |work| && work[i] == a;
    var j :| 0 <= j < |work| && work[j] == b;
  }

  // ---------------------------------------------------------------- a closed network

  /** Work is handed out for active networks only. */
  lemma {:induction false} ChunkOfActive(work: seq<Work>, nets: seq<Net>, d: Dict)
    ensures FirstChunk(work, nets, d).Some? ==> exists n :: n in nets && n.bssid == FirstChunk(work, nets, d).value.net
  {
    hide FirstFree, Of;
    if nets != [] {
      ChunkOfActive(work, nets[1..], d);
      assert nets[0] in nets && forall n :: n in nets[1..] ==> n in nets;
    }
  }

  lemma HandedToActive(s: Sys, now: int)
    ensures GetWorkStep(s, now).1.Some? ==> HasActive(s.db.nets, GetWorkStep(s, now).1.value.net)
  {
    hide FirstChunk;
    var work, nets, d, o := Unexpired(s.db.work, now), Active(s.db.nets), Current(s.db.dicts), Oldest(Unexpired(s.db.work, now));
    if d.Some? {
      ChunkOfActive(work, nets, d.value);
      if o.Some? {
        ChunkOfActive(WithoutId(work, o.value.id), nets, d.value);
      }
    }
  }

  lemma InactiveStep(s: Sys, op: Op, net: string)
    requires !HasActive(s.db.nets, net) && op != Crack(net)
    ensures !HasActive(Step(s, op).db.nets, net)
  {
    hide Complete, Reported, FirstChunk;
    match op
    case Result(c, now) => EndedBy(s.db.nets, c.net, None);
    case Password(b, pass, found) => EndedBy(s.db.nets, b, Some(pass));
    case _ =>
  }

  /** What net_done means for the clients: as long as nobody asks for the network again, no request
      hands out any of its work. */
  lemma {:induction false} NoMoreWork(s: Sys, ops: seq<Op>, net: string, now: int)
    requires !HasActive(s.db.nets, net) && Crack(net) !in ops
    ensures var c := GetWorkStep(Run(s, ops), now).1; c.Some? ==> c.value.net != net
    decreases |ops|
  {
    hide Step, HasActive, GetWorkStep;
    if ops == [] {
      HandedToActive(s, now);
    } else {
      assert ops[0] in ops && forall op :: op in ops[1..] ==> op in ops;
      InactiveStep(s, ops[0], net);
      NoMoreWork(Step(s, ops[0]), ops[1..], net, now);
    }
  }

  /** ... so a network done has no row left that anything is handed out for, and no work. */
  lemma NetDoneEnds(s: Sys, net: string, pass: Option<string>)
    ensures var s' := NetDone(s, net, pass);
            && !HasActive(s'.db.nets, net) && (forall r :: r in s'.db.work ==> r.net != net)
            && forall r: Work :: r.net != net ==> (r in s'.db.work <==> r in s.db.work)
  {
    EndedBy(s.db.nets, net, pass);
  }

  // ---------------------------------------------------------------- a closed network cracked again

  /** The state after `crack` on a closed network: a dictionary of one line, the closed row, the new
      row, no work. */
  function Reopened(given: set<Chunk>): Sys {
    Sys(Db([Net("n", None, 2), Net("n", None, 1)], [Dict("d", 1, true)], []), Hist(given, given, {}, {}))
  }

  const WHOLE: Chunk := Chunk("n", "d", 0, 1)

  /** With one active row and no work, the whole dictionary of one line is handed out. */
  lemma HandsOutWhole(s: Sys, now: int)
    requires s.db.dicts == [Dict("d", 1, true)] && s.db.work == []
    requires s.db.nets == [Net("n", None, 1)] || s.db.nets == [Net("n", None, 2), Net("n", None, 1)]
    ensures GetWorkStep(s, now) ==
            (Sys(s.db.(work := [Work(0, "n", "d", 0, 1, now, 1)]), s.h.(given := s.h.given + {WHOLE})), Some(WHOLE))
  {
    var d, n := Dict("d", 1, true), Net("n", None, 1);
    assert Unexpired([], now) == [];
    assert s.db.nets[..|s.db.nets| - 1] == [] || s.db.nets[..1] == [Net("n", None, 2)];
    assert Active([]) == [] && Active([Net("n", None, 2)]) == [];
    assert Active(s.db.nets) == [n];
    assert Of([], "n", "d") == [];
    assert !Covers([], 0);
    assert NextChunk([], "n", d) == Some(WHOLE);
    assert FirstChunk([], [n], d) == Some(WHOLE);
    assert Assigned([], WHOLE, now) == [Work(0, "n", "d", 0, 1, now, 1)];
  }

  /** The report of the only chunk closes the network. */
  lemma ClosesWhole(now: int)
    ensures var n, d := Net("n", None, 1), Dict("d", 1, true);
            ResultStep(Sys(Db([n], [d], [Work(0, "n", "d", 0, 1, now, 1)]), Hist({WHOLE}, {}, {}, {})), WHOLE, now) ==
            Sys(Db([Net("n", None, 2)], [d], []), Hist({WHOLE}, {WHOLE}, {}, {}))
  {
    var n, d, row := Net("n", None, 1), Dict("d", 1, true), Work(0, "n", "d", 0, 1, now, 1);
    var done := row.(state := 2);
    assert row in [row] && ChunkOf(row) == WHOLE;
    assert Reported([row], WHOLE, now) == [done];
    OnlyRow(done);
    assert Complete([done], "n", "d", 1) by {
      assert done in Of(Done([done]), "n", "d");
    }
    assert Closed([n], "n", None) == [Net("n", None, 2)];
    assert WithoutNet([done], "n") == [];
    assert Cleared({WHOLE}, "n") == {};
  }

  lemma OnlyRow(r: Work)
    requires r.net == "n" && r.dict == "d" && r.state == 2
    ensures Of(Done([r]), "n", "d") == [r] && WithoutNet([r], "n") == []
  {
    assert Done([]) == [];
    assert Done([r]) == [r];
    assert Of([], "n", "d") == [];
    assert WithoutNet([], "n") == [];
  }

  lemma {:induction false} OneMore(s: Sys, ops: seq<Op>, op: Op)
    requires Legal(s, ops) && Allowed(Run(s, ops), op)
    ensures Legal(s, ops + [op]) && Run(s, ops + [op]) == Step(Run(s, ops), op)
    decreases |ops|
  {
    hide Allowed, Step;
    if ops == [] {
      assert (ops + [op])[1..] == [];
    } else {
      assert (ops + [op])[1..] == ops[1..] + [op];
      OneMore(Step(s, ops[0]), ops[1..], op);
    }
  }

  /** The requests before the first work is handed out. */
  lemma SetUp() returns (ops: seq<Op>)
    ensures Legal(Init(), ops) && Run(Init(), ops) == Sys(Db([Net("n", None, 1)], [Dict("d", 1, true)], []), Hist({}, {}, {}, {}))
  {
    hide Legal, Run;
    NoRequests();
    OneMore(Init(), [], Upload("d", 1));
    ops := [] + [Upload("d", 1)];
    OneMore(Init(), ops, SetDict("d"));
    ops := ops + [SetDict("d")];
    OneMore(Init(), ops, Crack("n"));
    ops := ops + [Crack("n")];
  }

  lemma NoRequests()
    ensures Legal(Init(), []) && Run(Init(), []) == Init()
  {
  }

  /** The requests lead there. */
  lemma Reopening(now: int) returns (ops: seq<Op>)
    ensures Legal(Init(), ops) && Run(Init(), ops) == Reopened({WHOLE})
  {
    hide Legal, Run, GetWorkStep, ResultStep;
    ops := SetUp();
    HandsOutWhole(Run(Init(), ops), now);
    OneMore(Init(), ops, GetWork(now));
    ops := ops + [GetWork(now)];
    ClosesWhole(now);
    assert {} + {WHOLE} == {WHOLE};
    OneMore(Init(), ops, Result(WHOLE, now));
    ops := ops + [Result(WHOLE, now)];
    OneMore(Init(), ops, Crack("n"));
    ops := ops + [Crack("n")];
  }

  /** A run after which the whole dictionary is handed out to a client and its report, which completes
      the coverage, changes no table: the active row stays, and the chunk stays handed out. */
  lemma CompletedNotClosed(now: int) returns (ops: seq<Op>)
    ensures Legal(Init(), ops)
    ensures var s := Run(Init(), ops);
            && HasActive(s.db.nets, "n") && GetWorkStep(s, now).1 == Some(WHOLE)
            && var given := GetWorkStep(s, now).0;
            && AllReported(given.h.since + {WHOLE}, "n", "d", Lines(given.db.dicts, "d"))
            && ResultStep(given, WHOLE, now).db == given.db
  {
    hide Legal, Run;
    ops := Reopening(now);
    var s := Run(Init(), ops);
    HandsOutWhole(s, now);
    assert s.db.nets[1] in s.db.nets;
    assert WHOLE in {WHOLE};
    assert forall k :: 0 <= k < 1 ==> LineIn({WHOLE}, "n", "d", k);
  }
}
