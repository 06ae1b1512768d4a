/** The request handlers of dcrack, as they loop over the rows of their queries, and the client's
    slicing of a dictionary. */
module DcrackServer {
  import opened Options
  import opened DcrackTables
  import opened DcrackProperties
  import opened DcrackRuns

  datatype Reply = Work(chunk: Chunk) | Interval | Failed

  /** The loop of try_network over the rows of one network and dictionary: the first gap, and how many
      lines to take from it. The clipping against the row behind the one that opened the gap never
      happens, because chunks are aligned. */
  method Gap(rows: seq<Work>, lines: int) returns (i: int, s: int)
    requires Chunks(rows, lines) && Strict(rows) && 0 <= lines
    ensures i == FirstFree(rows, 0, lines)
    ensures s == if i + CHUNK <= lines then CHUNK else lines - i
  {
    hide Covers, FirstFree, IsChunk;
    PrefixStart(rows, lines);
    s := CHUNK;
    i := 0;
    var found, k := false, 0;
    while k < |rows|
      invariant 0 <= k <= |rows| && s == CHUNK
      invariant !found ==> Prefix(rows, k, i, lines)
      invariant found ==> 0 < k && Prefix(rows, k - 1, i, lines) && rows[k - 1].start > i
    {
      var row := rows[k];
      assert row in rows;
      ChunkNotEmpty(row.start, row.end, lines);
      if found {
        PrefixEnd(rows, k - 1, i, lines);
        if i + s > row.start {
          s := row.start - i;
        }
        break;
      }
      if i >= row.start && i <= row.end {
        PrefixNext(rows, k, i, lines);
        i := row.end;
      } else {
        found := true;
      }
      k := k + 1;
    }
    PrefixEnd(rows, if found then k - 1 else k, i, lines);
    if i + s > lines {
      s := lines - i;
    }
  }

  /** The loop of do_result over the reported rows of one network and dictionary: how far they reach
      from the first line on without a gap. */
  method Reach(rows: seq<Work>, ghost lines: int) returns (i: int)
    requires Chunks(rows, lines) && Strict(rows) && 0 <= lines
    ensures i == FirstFree(rows, 0, lines)
  {
    hide Covers, FirstFree, IsChunk;
    PrefixStart(rows, lines);
    i := 0;
    var k := 0;
    while k < |rows|
      invariant 0 <= k <= |rows| && Prefix(rows, k, i, lines)
    {
      if i == rows[k].start {
        PrefixNext(rows, k, i, lines);
        i := rows[k].end;
      } else {
        break;
      }
      k := k + 1;
    }
    PrefixEnd(rows, k, i, lines);
  }

  class Server {
    var nets: seq<Net>
    var dicts: seq<Dict>
    var work: seq<Work>
    ghost var h: Hist

    ghost function State(): Sys
      reads this
    {
      Sys(Db(nets, dicts, work), h)
    }

    constructor ()
      ensures State() == Init() && Inv(State())
    {
      nets, dicts, work := [], [], [];
      h := Hist({}, {}, {}, {});
    }

    /** try_network */
    method TryNetwork(net: Net, d: Dict, now: int) returns (res: Option<Chunk>)
      requires Inv(State()) && d in dicts
      modifies this`work, this`h
      ensures res == NextChunk(old(work), net.bssid, d)
      ensures State() == if res.Some? then HandOut(old(State()), old(work), res.value, now) else old(State())
    {
      hide IsChunk, Lines, Where, ByStart, FirstFree, Unique;
      RowsInOrder(State(), net.bssid, d);
      FirstFreeSame(ByStart(Of(work, net.bssid, d.id)), Of(work, net.bssid, d.id), d.lines);
      var i, s := Gap(ByStart(Of(work, net.bssid, d.id)), d.lines);
      if s == 0 {
        return None;
      }
      var c := Chunk(net.bssid, d.id, i, i + s);
      work := Assigned(work, c, now);
      h := h.(given := h.given + {c});
      return Some(c);
    }

    /** The loop over the active networks. */
    method TryNetworks(rows: seq<Net>, d: Dict, now: int) returns (res: Option<Chunk>)
      requires Inv(State()) && d in dicts
      modifies this`work, this`h
      ensures res == FirstChunk(old(work), rows, d)
      ensures State() == if res.Some? then HandOut(old(State()), old(work), res.value, now) else old(State())
    {
      hide Inv, NextChunk;
      var k := 0;
      while k < |rows|
        invariant 0 <= k <= |rows| && State() == old(State())
        invariant FirstChunk(work, rows, d) == FirstChunk(work, rows[k..], d)
      {
        res := TryNetwork(rows[k], d, now);
        if res.Some? {
          return;
        }
        assert rows[k..][1..] == rows[k + 1..];
        k := k + 1;
      }
      return None;
    }

    /** do_getwork */
    method GetWork(now: int) returns (reply: Reply)
      requires Inv(State())
      modifies this`work, this`h
      ensures State() == GetWorkStep(old(State()), now).0 && Inv(State())
      ensures reply.Work? ==> GetWorkStep(old(State()), now).1 == Some(reply.chunk)
      ensures !reply.Work? ==> GetWorkStep(old(State()), now).1 == None
      ensures reply.Failed? <==> Current(dicts).None? && Active(nets) != []
    {
      hide Inv, NextChunk, Unexpired, WithoutId, Oldest, Current;
      ghost var s0 := State();
      GetWorkKeeps(s0, now);
      work := Unexpired(work, now);
      ExpireKeeps(s0, now);
      var d := Current(dicts);
      var r := Active(nets);
      if d.None? {
        return if r != [] then Failed else Interval;
      }
      var res := TryNetworks(r, d.value, now);
      if res.Some? {
        return Reply.Work(res.value);
      }
      var oldest := Oldest(work);
      if oldest.Some? {
        var committed := work;
        ForgetKeeps(State(), oldest.value);
        work := WithoutId(work, oldest.value.id);
        res := TryNetworks(r, d.value, now);
        if res.Some? {
          return Reply.Work(res.value);
        }
        work := committed;      // nothing was committed: the deletion is rolled back
      }
      return Interval;
    }

    /** do_upload_dict: the id is the hash of the contents. */
    method UploadDict(id: string, lines: nat)
      requires Inv(State()) && Allowed(State(), Upload(id, lines))
      modifies this`dicts
      ensures State() == Step(old(State()), Upload(id, lines)) && Inv(State())
    {
      StepKeeps(State(), Upload(id, lines));
      dicts := dicts + [Dict(id, lines, false)];
    }

    /** do_dict_set */
    method DictSet(id: string)
      requires Inv(State())
      modifies this`dicts
      ensures State() == Step(old(State()), SetDict(id)) && Inv(State())
    {
      StepKeeps(State(), SetDict(id));
      dicts := SetCurrent(dicts, id);
    }

    /** do_crack */
    method Crack(bssid: string)
      requires Inv(State())
      modifies this`nets
      ensures State() == Step(old(State()), Op.Crack(bssid)) && Inv(State())
    {
      StepKeeps(State(), Op.Crack(bssid));
      nets := nets + [Net(bssid, None, 1)];
    }

    /** remove */
    method Remove(bssid: string)
      requires Inv(State())
      modifies this`nets, this`work, this`h
      ensures State() == Step(old(State()), Op.Remove(bssid)) && Inv(State())
      ensures forall r :: r in work <==> r in old(work) && r.net != bssid
      ensures forall n :: n in nets <==> n in old(nets) && n.bssid != bssid
    {
      StepKeeps(State(), Op.Remove(bssid));
      nets := WithoutBssid(nets, bssid);
      work := WithoutNet(work, bssid);
      h := h.(since := Cleared(h.since, bssid), counted := Cleared(h.counted, bssid));
    }

    /** net_done: the network has no active row and no work left. If a whole dictionary has been
        reported for it the invariant is kept. */
    method NetDone(net: string)
      modifies this`nets, this`work, this`h
      ensures State() == DcrackRuns.NetDone(old(State()), net, None)
      ensures !HasActive(nets, net) && forall r :: r in work ==> r.net != net
      ensures old(Inv(State()) && GivenUp(dicts, h.reported, net)) ==> Inv(State())
    {
      hide Inv, GivenUp;
      NetDoneEnds(State(), net, None);
      if Inv(State()) && GivenUp(dicts, h.reported, net) {
        NetDoneKeeps(State(), net, None);
      }
      nets := Closed(nets, net, None);
      work := WithoutNet(work, net);
      h := h.(since := Cleared(h.since, net), counted := Cleared(h.counted, net));
    }

    /** do_result without a password; c is the reported range. */
    method Result(c: Chunk, now: int) returns (already: bool)
      requires Inv(State()) && c in h.given
      modifies this`nets, this`work, this`h
      ensures State() == ResultStep(old(State()), c, now) && Inv(State())
      ensures already <==> AlreadyDone(old(nets), c.net)
    {
      hide Inv, Complete, ByStart, Where, Reported, Lines, IsChunk;
      ghost var s0 := State();
      ResultKeeps(s0, c, now);
      var first := FirstNet(nets, c.net);
      h := h.(reported := h.reported + {c}, since := h.since + {c});
      if first.Some? && first.value.state == 2 {
        return true;
      }
      NotedKeeps(s0, c, now);
      work := Reported(work, c, now);
      h := h.(counted := h.counted + {c});
      ghost var lines := Lines(dicts, c.dict);
      DoneInOrder(State(), c);
      var i := Reach(ByStart(Of(Done(work), c.net, c.dict)), lines);
      if exists d :: d in dicts && d.id == c.dict && d.lines == i {
        NetDone(c.net);
      }
      return false;
    }

    /** do_result with a password; whether it opens the network is found out by aircrack-ng. */
    method ResultPass(net: string, pass: string, found: bool)
      requires Inv(State())
      modifies this`nets, this`work, this`h
      ensures State() == Step(old(State()), Password(net, pass, found)) && Inv(State())
    {
      hide Inv;
      StepKeeps(State(), Password(net, pass, found));
      if found {
        NetDone(net);
        nets := WithPass(nets, net, pass);
        assert nets == Closed(old(nets), net, Some(pass));
      }
    }
  }

  // ---------------------------------------------------------------- the client

  /** What a client cuts out of its dictionary for a chunk. */
  function Slice<Line>(file: seq<Line>, start: int, end: int): seq<Line>
    requires 0 <= start <= end
  {
    file[if start <= |file| then start else |file|..if end <= |file| then end else |file|]
  }

  /** The loop of setup_dict. */
  method CutSlice<Line>(file: seq<Line>, start: int, end: int) returns (o: seq<Line>)
    requires 0 <= start <= end
    ensures o == Slice(file, start, end)
  {
    o := [];
    var i := 0;
    while i < |file|
      invariant 0 <= i <= |file| && (i <= end || end >= |file|)
      invariant o == if i <= start then [] else file[start..i]
    {
      if i >= end {
        break;
      }
      if i >= start {
        o := o + [file[i]];
      }
      i := i + 1;
    }
  }

  function Slices<Line>(file: seq<Line>, rows: seq<Work>): seq<Line>
    requires forall r :: r in rows ==> 0 <= r.start <= r.end
  {
    if rows == [] then [] else Slices(file, rows[..|rows| - 1]) + Slice(file, rows[|rows| - 1].start, rows[|rows| - 1].end)
  }

  /** What the clients searched when a network is given up: the slices for its reported chunks, in
      order, are the dictionary. */
  lemma SlicesWhole<Line>(s: Sys, net: string, d: Dict, file: seq<Line>)
    requires Inv(s) && d in s.db.dicts && Complete(s.db.work, net, d.id, d.lines) && |file| == d.lines
    ensures forall r :: r in Of(Done(s.db.work), net, d.id) ==> 0 <= r.start <= r.end
    ensures Slices(file, ByStart(Of(Done(s.db.work), net, d.id))) == file
  {
    hide IsChunk, Lines, Where, ByStart, Unique;
    var rows := ByStart(Of(Done(s.db.work), net, d.id));
    RowsInOrder(s, net, d);
    FirstFreeSame(rows, Of(Done(s.db.work), net, d.id), d.lines);
    NotEmpty(rows, d.lines);
    SlicesPrefix(file, rows, 0, 0);
  }

  lemma NotEmpty(rows: seq<Work>, lines: int)
    requires Chunks(rows, lines)
    ensures forall r :: r in rows ==> 0 <= r.start < r.end <= lines
    ensures forall j :: 0 <= j < |rows| ==> rows[j].start < lines
  {
  }

  lemma {:induction false} SlicesPrefix<Line>(file: seq<Line>, rows: seq<Work>, k: nat, i: int)
    requires Chunks(rows, |file|) && Strict(rows) && Prefix(rows, k, i, |file|) && FirstFree(rows, 0, |file|) == |file|
    requires forall r :: r in rows ==> 0 <= r.start < r.end <= |file|
    requires forall j :: 0 <= j < |rows| ==> rows[j].start < |file|
    requires Slices(file, rows[..k]) == file[..i]
    ensures Slices(file, rows) == file
    decreases |rows| - k
  {
    hide IsChunk, FirstFree, Covers;
    if k < |rows| && rows[k].start == i {
      PrefixNext(rows, k, i, |file|);
      assert rows[..k + 1][..k] == rows[..k];
      assert rows[k] in rows;
      assert file[..rows[k].end] == file[..i] + file[i..rows[k].end];
      SlicesPrefix(file, rows, k + 1, rows[k].end);
    } else {
      PrefixEnd(rows, k, i, |file|);
      assert rows[..k] == rows && file[..i] == file;
    }
  }

  /** UPDATE nets set pass = ? where bssid = ? */
  function WithPass(nets: seq<Net>, net: string, pass: string): (ns: seq<Net>)
    ensures |ns| == |nets|
    ensures forall k :: 0 <= k < |ns| ==> ns[k] == if nets[k].bssid == net then nets[k].(pass := Some(pass)) else nets[k]
  {
    seq(|nets|, k requires 0 <= k < |nets| => if nets[k].bssid == net then nets[k].(pass := Some(pass)) else nets[k])
  }

  /** The reported rows in order, and what it means that they reach the last line. */
  lemma DoneInOrder(s: Sys, c: Chunk)
    requires Inv(s) && c in s.h.given
    ensures var rows, lines := ByStart(Of(Done(s.db.work), c.net, c.dict)), Lines(s.db.dicts, c.dict);
            && Chunks(rows, lines) && Strict(rows) && 0 < lines
            && (Complete(s.db.work, c.net, c.dict, lines) <==>
                exists d :: d in s.db.dicts && d.id == c.dict && d.lines == FirstFree(rows, 0, lines))
  {
    hide IsChunk;
    var rows, lines := ByStart(Of(Done(s.db.work), c.net, c.dict)), Lines(s.db.dicts, c.dict);
    ChunkNotEmpty(c.start, c.end, lines);
    KnownDict(s.db.dicts, c.dict);
    var d :| d in s.db.dicts && d.id == c.dict;
    RowsInOrder(s, c.net, d);
    FirstFreeSame(rows, Of(Done(s.db.work), c.net, c.dict), lines);
    assert d.lines == lines;
  }

  lemma RowsInOrder(s: Sys, net: string, d: Dict)
    requires Inv(s) && d in s.db.dicts
    ensures var rows := ByStart(Of(s.db.work, net, d.id));
            Chunks(rows, d.lines) && Strict(rows) && Prefix(rows, 0, 0, d.lines)
    ensures var rows := ByStart(Of(Done(s.db.work), net, d.id));
            Chunks(rows, d.lines) && Strict(rows) && Prefix(rows, 0, 0, d.lines)
  {
    hide Lines, IsChunk;
    OfChunks(s.db.work, s.db.dicts, net, d.id);
    OfDistinct(s.db.work, net, d.id);
    ByStartStrict(Of(s.db.work, net, d.id));
    ByStartStrict(Of(Done(s.db.work), net, d.id));
    PrefixStart(ByStart(Of(s.db.work, net, d.id)), d.lines);
    PrefixStart(ByStart(Of(Done(s.db.work), net, d.id)), d.lines);
  }

  lemma ChunkNotEmpty(start: int, end: int, lines: int)
    requires IsChunk(start, end, lines)
    ensures 0 <= start < end <= lines
  {
  }

  lemma ExpireKeeps(s: Sys, now: int)
    requires Inv(s)
    ensures Inv(s.(db := s.db.(work := Unexpired(s.db.work, now))))
  {
    DeletedWork(s, (r: Work) => !(now - r.last > EXPIRY && r.state == 1));
  }

  lemma ForgetKeeps(s: Sys, o: Work)
    requires Inv(s) && o in s.db.work && o.state == 1
    ensures Inv(s.(db := s.db.(work := WithoutId(s.db.work, o.id))))
  {
    OldestAlone(s.db.work, o);
    DeletedWork(s, (r: Work) => r.id != o.id);
  }
}
