/** Any number of processes reading and writing one pipe, interleaved at their accesses to the shared
    pointers. Data moves under the semaphore; the conditions on which processes go to sleep are
    evaluated without it, from pointers read one after the other. */
module ScullPipeRuns {
  import opened Options
  import opened BitStream
  import opened Ring
  import opened ScullPipe

  datatype Op = Rd(count: nat) | Wr(data: seq<int>)

  /** What an unlocked test has read so far: nothing, one pointer, or (in spacefree) that the
      pointers differed, and then again nothing or one pointer. */
  datatype Glimpse = Nothing | SawRp(v: nat) | SawWp(v: nat)

  datatype At =
    | Idle
    | Down                                      // down_interruptible
    | Test                                      // is there nothing to read, no space to write?
    | Release                                   // up, and wait
    | Peek(armed: bool, differ: bool, seen: Glimpse)  // the unlocked test; `armed` after prepare_to_wait
    | Prepare                                   // prepare_to_wait
    | Asleep                                    // schedule
    | Move                                      // copy, and advance the pointer
    | Wrap                                      // at the end, back to the start
    | Up                                        // up
    | Wake                                      // wake_up_interruptible on the other queue

  /** A process in a call; `woken` since its prepare_to_wait; `touched`: a pointer store of the other
      side since then. */
  datatype Proc = Proc(at: At, op: Op, woken: bool, touched: bool)

  /** The buffer and the semaphore's owner (-1: none); all bytes accepted and all bytes delivered. */
  datatype Sh = Sh(buf: seq<int>, rp: nat, wp: nat, owner: int, sent: seq<int>, got: seq<int>)
  datatype St = St(sh: Sh, procs: seq<Proc>)

  datatype Label =
    | Call(op: Op)
    | Go(signal: bool, nonblock: bool, wpFirst: bool)
    | Fault(garbage: seq<int>)

  function Init(buf: seq<int>, n: nat): St {
    St(Sh(buf, 0, 0, -1, [], []), seq(n, _ => Proc(Idle, Rd(0), false, false)))
  }

  predicate Holds(at: At) {
    at == Test || at == Release || at == Move || at == Wrap || at == Up
  }

  /** The condition of the wait, evaluated on these pointer values: go on if it holds. */
  predicate CanGo(op: Op, size: nat, rp: nat, wp: nat)
    requires size > 0
  {
    if op.Rd? then rp != wp else SpaceFree(size, rp, wp) != 0
  }

  /** One load of the unlocked test. */
  function PeekStep(s: Sh, p: Proc, signal: bool, wpFirst: bool): At
    requires p.at.Peek? && |s.buf| > 0
  {
    match p.at.seen
    case Nothing => p.at.(seen := if wpFirst then SawWp(s.wp) else SawRp(s.rp))
    case _ =>
      var rp, wp := if p.at.seen.SawRp? then p.at.seen.v else s.rp, if p.at.seen.SawWp? then p.at.seen.v else s.wp;
      if p.op.Wr? && !p.at.differ && rp != wp then Peek(p.at.armed, true, Nothing)
      else if (if p.op.Rd? then rp != wp else if p.at.differ then Later(|s.buf|, rp, wp) != 0 else |s.buf| - 1 != 0) then
        if p.op.Wr? && signal then Idle else Down
      else if !p.at.armed then Prepare
      else if p.op.Rd? && signal then Idle
      else Asleep
  }

  /** spacefree once the pointers have been seen to differ. */
  function Later(size: nat, rp: nat, wp: nat): int
    requires size > 0
  {
    (rp + size - wp) % size - 1
  }

  /** What process p, whose number is i, does next on its own. */
  function Own(s: Sh, i: nat, p: Proc, signal: bool, nonblock: bool, wpFirst: bool): Option<(Sh, Proc)> {
    match p.at
    case Down =>
      if signal then Some((s, p.(at := Idle)))
      else if s.owner == -1 then Some((s.(owner := i), p.(at := Test)))
      else None
    case Test => if |s.buf| > 0 then Some((s, p.(at := if CanGo(p.op, |s.buf|, s.rp, s.wp) then Move else Release))) else None
    case Release =>
      Some((s.(owner := -1),
            p.(at := if nonblock then Idle else if p.op.Rd? then Peek(false, false, Nothing) else Prepare)))
    case Peek(_, _, _) => if |s.buf| > 0 then Some((s, p.(at := PeekStep(s, p, signal, wpFirst)))) else None
    case Prepare => Some((s, p.(at := Peek(true, false, Nothing), woken := false, touched := false)))
    case Asleep =>
      if !p.woken && !signal then None
      else if p.op.Rd? then Some((s, p.(at := Prepare)))
      else Some((s, p.(at := if signal then Idle else Down)))
    case Up => Some((s.(owner := -1), p.(at := Wake)))
    case _ => None
  }

  /** A store to wp touches the readers, one to rp the writers. */
  function Touched(procs: seq<Proc>, readers: bool): (ps: seq<Proc>)
    ensures |ps| == |procs|
    ensures forall k :: 0 <= k < |ps| ==> ps[k] == if procs[k].op.Rd? == readers then procs[k].(touched := true) else procs[k]
  {
    seq(|procs|, k requires 0 <= k < |procs| => if procs[k].op.Rd? == readers then procs[k].(touched := true) else procs[k])
  }

  function Woken(procs: seq<Proc>, readers: bool): (ps: seq<Proc>)
    ensures |ps| == |procs|
    ensures forall k :: 0 <= k < |ps| ==> ps[k] == if procs[k].op.Rd? == readers then procs[k].(woken := true) else procs[k]
  {
    seq(|procs|, k requires 0 <= k < |procs| => if procs[k].op.Rd? == readers then procs[k].(woken := true) else procs[k])
  }

  /** The copy and the first store to the pointer. */
  function Moved(s: Sh, op: Op): Option<Sh> {
    if !(s.rp < |s.buf| && s.wp < |s.buf|) then None
    else match op
      case Rd(count) =>
        var n := ReadCount(|s.buf|, s.rp, s.wp, count);
        if s.rp + n <= |s.buf| then Some(s.(rp := s.rp + n, got := s.got + s.buf[s.rp..s.rp + n])) else None
      case Wr(data) =>
        var n := WriteCount(|s.buf|, s.rp, s.wp, |data|);
        if 0 <= n <= |data| && s.wp + n <= |s.buf| then
          Some(s.(buf := Stored(s.buf, s.wp, data[..n]), wp := s.wp + n, sent := s.sent + data[..n]))
        else None
  }

  function Wrapped(s: Sh, op: Op): Sh {
    if op.Rd? then s.(rp := Norm(|s.buf|, s.rp)) else s.(wp := Norm(|s.buf|, s.wp))
  }

  /** What a failing copy may have stored. */
  predicate Faulty(s: Sh, op: Op, garbage: seq<int>) {
    && s.rp < |s.buf| && s.wp < |s.buf|
    && (op.Wr? ==> |garbage| <= WriteCount(|s.buf|, s.rp, s.wp, |op.data|) && s.wp + |garbage| <= |s.buf|)
  }

  function Next(s: St, i: nat, l: Label): Option<St>
    requires i < |s.procs|
  {
    var p := s.procs[i];
    match l
    case Call(op) => if p.at == Idle then Some(s.(procs := s.procs[i := Proc(Down, op, false, false)])) else None
    case Fault(garbage) =>
      if p.at == Move && Faulty(s.sh, p.op, garbage) then
        Some(St(s.sh.(buf := if p.op.Wr? then Stored(s.sh.buf, s.sh.wp, garbage) else s.sh.buf, owner := -1),
                s.procs[i := p.(at := Idle)]))
      else None
    case Go(signal, nonblock, wpFirst) =>
      match p.at
      case Move =>
        var sh := Moved(s.sh, p.op);
        if sh.Some? then Some(St(sh.value, Touched(s.procs, p.op.Wr?)[i := p.(at := Wrap)])) else None
      case Wrap => Some(St(Wrapped(s.sh, p.op), Touched(s.procs, p.op.Wr?)[i := p.(at := Up)]))
      case Wake => Some(St(s.sh, Woken(s.procs, p.op.Wr?)[i := p.(at := Idle)]))
      case _ =>
        var o := Own(s.sh, i, p, signal, nonblock, wpFirst);
        if o.Some? then Some(St(o.value.0, s.procs[i := o.value.1])) else None
  }

  // ---------------------------------------------------------------- what every step keeps

  function Fill(s: Sh): nat
    requires Pointers(s)
  {
    Count(|s.buf|, Norm(|s.buf|, s.rp), Norm(|s.buf|, s.wp))
  }

  predicate Pointers(s: Sh) {
    |s.buf| > 0 && s.rp <= |s.buf| && s.wp <= |s.buf|
  }

  /** Bytes are delivered in the order in which they were accepted; the rest is in the buffer. */
  predicate Fifo(s: Sh)
    requires Pointers(s)
  {
    s.got + Contents(s.buf, Norm(|s.buf|, s.rp), Norm(|s.buf|, s.wp)) == s.sent
  }

  /** Between its pointer store and the end of its wake-up call. */
  predicate Pending(p: Proc, reader: bool) {
    p.op.Rd? == reader && (p.at == Wrap || p.at == Up || p.at == Wake)
  }

  ghost predicate SomePending(procs: seq<Proc>, reader: bool) {
    exists j :: 0 <= j < |procs| && Pending(procs[j], reader)
  }

  /** Between prepare_to_wait and finish_wait. */
  predicate Registered(p: Proc) {
    p.at == Asleep || (p.at.Peek? && p.at.armed)
  }

  /** Nothing to read, or no space to write. */
  predicate Blocked(s: Sh, op: Op)
    requires Pointers(s)
  {
    if op.Rd? then Fill(s) == 0 else Fill(s) == |s.buf| - 1
  }

  /** What a waiting process knows as long as no store of the other side has touched it. */
  predicate Untouched(s: Sh, p: Proc)
    requires Pointers(s)
  {
    match p.at
    case Asleep => Blocked(s, p.op)
    case Peek(_, differ, SawRp(v)) =>
      if p.op.Rd? then v == s.wp ==> Fill(s) == 0
      else differ ==> v == s.rp
    case Peek(_, differ, SawWp(v)) =>
      if p.op.Rd? then v == s.wp
      else differ ==> v <= |s.buf| && (Later(|s.buf|, s.rp, v) == 0 ==> Fill(s) == |s.buf| - 1)
    case _ => true
  }

  predicate WaitOk(s: Sh, p: Proc, pending: bool)
    requires Pointers(s)
  {
    Registered(p) && !p.woken ==> if p.touched then pending else Untouched(s, p)
  }

  predicate ProcOk(s: Sh, i: nat, p: Proc)
    requires Pointers(s)
  {
    && (Holds(p.at) <==> s.owner == i)
    && (p.at == Move ==> !Blocked(s, p.op))
    && (p.at == Release ==> Blocked(s, p.op))
    && (s.rp == |s.buf| && s.owner == i ==> p.at == Wrap && p.op.Rd?)
    && (s.wp == |s.buf| && s.owner == i ==> p.at == Wrap && p.op.Wr?)
  }

  ghost predicate Inv(s: St) {
    && Pointers(s.sh) && Fifo(s.sh) && -1 <= s.sh.owner < |s.procs|
    && (s.sh.owner == -1 ==> s.sh.rp < |s.sh.buf| && s.sh.wp < |s.sh.buf|)
    && (forall i :: 0 <= i < |s.procs| ==> ProcOk(s.sh, i, s.procs[i]))
    && (forall i :: 0 <= i < |s.procs| ==> WaitOk(s.sh, s.procs[i], SomePending(s.procs, s.procs[i].op.Wr?)))
  }

  lemma InitOk(buf: seq<int>, n: nat)
    requires buf != []
    ensures Inv(Init(buf, n))
  {
  }

  // ------------------------------ steps of one process on its own

  /** A step of process i that changes nothing shared but the semaphore's owner. */
  lemma OwnKeeps(s: St, i: nat, owner: int, p: Proc)
    requires Inv(s) && i < |s.procs| && (owner == s.sh.owner || owner == i || (owner == -1 && s.sh.owner == i))
    requires s.sh.owner != i ==> (owner == i ==> s.sh.owner == -1)
    requires owner == -1 ==> s.sh.rp < |s.sh.buf| && s.sh.wp < |s.sh.buf|
    requires var sh := s.sh.(owner := owner); ProcOk(sh, i, p) && WaitOk(sh, p, SomePending(s.procs, p.op.Wr?))
    requires forall reader :: Pending(s.procs[i], reader) ==> Pending(p, reader)
    ensures Inv(St(s.sh.(owner := owner), s.procs[i := p]))
  {
    hide Contents, Count, Later, Pending;
    var s' := St(s.sh.(owner := owner), s.procs[i := p]);
    PendingKept(s.procs, s'.procs, i, true);
    PendingKept(s.procs, s'.procs, i, false);
    forall k | 0 <= k < |s.procs|
      ensures ProcOk(s'.sh, k, s'.procs[k]) && WaitOk(s'.sh, s'.procs[k], SomePending(s'.procs, s'.procs[k].op.Wr?))
    {
      assert ProcOk(s.sh, k, s.procs[k]) && WaitOk(s.sh, s.procs[k], SomePending(s.procs, s.procs[k].op.Wr?));
    }
  }

  lemma PendingKept(procs: seq<Proc>, procs': seq<Proc>, i: nat, reader: bool)
    requires |procs'| == |procs| && i < |procs| && (Pending(procs[i], reader) ==> Pending(procs'[i], reader))
    requires forall k :: 0 <= k < |procs| && k != i ==> procs'[k].at == procs[k].at && procs'[k].op == procs[k].op
    ensures SomePending(procs, reader) ==> SomePending(procs', reader)
  {
    if SomePending(procs, reader) {
      var j :| 0 <= j < |procs| && Pending(procs[j], reader);
      assert Pending(procs'[j], reader);
    }
  }

  /** What spacefree's second part says on pointers that may be at the end. */
  lemma LaterZero(size: nat, rp: nat, wp: nat)
    requires 0 < size && rp <= size && wp <= size && Later(size, rp, wp) == 0
    ensures Count(size, Norm(size, rp), Norm(size, wp)) == size - 1
  {
    if rp == size && wp == size {
      DivModUnique(size, size, 1, 0);
    } else if rp == wp {
      DivModUnique(size, size, 1, 0);
    } else {
      SpaceFreeAtEnd(size, rp, wp);
    }
  }

  /** Taking a glimpse, or deciding after the second load. */
  lemma PeekOk(s: Sh, p: Proc, pending: bool, signal: bool, wpFirst: bool)
    requires Pointers(s) && p.at.Peek? && WaitOk(s, p, pending)
    ensures WaitOk(s, p.(at := PeekStep(s, p, signal, wpFirst)), pending)
    ensures !Holds(PeekStep(s, p, signal, wpFirst))
  {
    hide Later, SpaceFree;
    if p.op.Wr? && p.at.differ {
      if Later(|s.buf|, s.rp, s.wp) == 0 {
        LaterZero(|s.buf|, s.rp, s.wp);
      }
    }
  }

  /** The test under the semaphore sees what is really there. */
  lemma CanGoIs(s: Sh, op: Op)
    requires Pointers(s) && s.rp < |s.buf| && s.wp < |s.buf|
    ensures CanGo(op, |s.buf|, s.rp, s.wp) <==> !Blocked(s, op)
  {
    SpaceFreeIs(|s.buf|, s.rp, s.wp);
  }

  /** What a step of its own gives a process. */
  lemma OwnGives(s: Sh, i: nat, p: Proc, pending: bool, signal: bool, nonblock: bool, wpFirst: bool)
    requires Pointers(s) && (s.owner == -1 ==> s.rp < |s.buf| && s.wp < |s.buf|)
    requires ProcOk(s, i, p) && WaitOk(s, p, pending) && Own(s, i, p, signal, nonblock, wpFirst).Some?
    ensures var o := Own(s, i, p, signal, nonblock, wpFirst).value;
            && o.0 == s.(owner := o.0.owner) && ProcOk(o.0, i, o.1) && WaitOk(o.0, o.1, pending) && o.1.op == p.op
            && (o.0.owner == s.owner || o.0.owner == i || (o.0.owner == -1 && s.owner == i))
            && (s.owner != i ==> (o.0.owner == i ==> s.owner == -1))
            && (o.0.owner == -1 && s.owner != -1 ==> s.rp < |s.buf| && s.wp < |s.buf|)
            && forall reader :: Pending(p, reader) ==> Pending(o.1, reader)
  {
    hide Contents, Count, Later, SpaceFree, Norm, Blocked, PeekStep, CanGo;
    if p.at.Peek? {
      PeekOk(s, p, pending, signal, wpFirst);
    }
    if p.at == Test {
      CanGoIs(s, p.op);
    }
  }

  lemma OwnStepKeeps(s: St, i: nat, signal: bool, nonblock: bool, wpFirst: bool)
    requires Inv(s) && i < |s.procs| && Own(s.sh, i, s.procs[i], signal, nonblock, wpFirst).Some?
    ensures var o := Own(s.sh, i, s.procs[i], signal, nonblock, wpFirst).value;
            Inv(St(o.0, s.procs[i := o.1]))
  {
    hide Own, Pending, Contents, Count, Later, SpaceFree, Fifo, Norm, Blocked, PeekStep, CanGo;
    var p := s.procs[i];
    assert ProcOk(s.sh, i, p) && WaitOk(s.sh, p, SomePending(s.procs, p.op.Wr?));
    OwnGives(s.sh, i, p, SomePending(s.procs, p.op.Wr?), signal, nonblock, wpFirst);
    var o := Own(s.sh, i, p, signal, nonblock, wpFirst).value;
    OwnKeeps(s, i, o.0.owner, o.1);
  }

  lemma CallKeeps(s: St, i: nat, op: Op)
    requires Inv(s) && i < |s.procs| && s.procs[i].at == Idle
    ensures Inv(s.(procs := s.procs[i := Proc(Down, op, false, false)]))
  {
    hide Contents, Count, Later, SpaceFree, Fifo, Norm, Blocked;
    assert ProcOk(s.sh, i, s.procs[i]);
    OwnKeeps(s, i, s.sh.owner, Proc(Down, op, false, false));
  }

  // ------------------------------ steps that touch or wake the other side

  /** The data section: bytes leave or enter in order, and the fill level follows. */
  lemma MovedOk(s: Sh, op: Op)
    requires Pointers(s) && Fifo(s) && s.rp < |s.buf| && s.wp < |s.buf| && !Blocked(s, op)
    ensures Moved(s, op).Some?
    ensures var s' := Moved(s, op).value;
            && Pointers(s') && Fifo(s') && |s'.buf| == |s.buf| && s'.owner == s.owner
            && (if op.Rd? then s'.wp == s.wp else s'.rp == s.rp)
            && (if op.Rd? then Fill(s') <= Fill(s) else Fill(s') >= Fill(s))
  {
    if op.Rd? {
      ReadOk(s, op.count);
    } else {
      WriteOk(s, op.data);
    }
  }

  lemma ReadOk(s: Sh, count: nat)
    requires Pointers(s) && Fifo(s) && s.rp < |s.buf| && s.wp < |s.buf| && s.rp != s.wp
    ensures Moved(s, Rd(count)).Some?
    ensures var s' := Moved(s, Rd(count)).value;
            && Pointers(s') && Fifo(s') && Fill(s') <= Fill(s)
            && s' == s.(rp := s'.rp, got := s'.got) && (count > 0 ==> |s'.got| > |s.got|)
  {
    hide Contents, Count, ReadCount;
    var n := ReadCount(|s.buf|, s.rp, s.wp, count);
    ReadCountIs(|s.buf|, s.rp, s.wp, count);
    TakeDrops(s.buf, s.rp, s.wp, n);
    Regroup(s.got, Contents(s.buf, s.rp, s.wp), n);
  }

  lemma Regroup(a: seq<int>, c: seq<int>, n: nat)
    requires n <= |c|
    ensures a + c == a + c[..n] + c[n..]
  {
    assert c == c[..n] + c[n..];
  }

  lemma WriteOk(s: Sh, data: seq<int>)
    requires Pointers(s) && Fifo(s) && s.rp < |s.buf| && s.wp < |s.buf| && Fill(s) != |s.buf| - 1
    ensures Moved(s, Wr(data)).Some?
    ensures var s' := Moved(s, Wr(data)).value;
            && Pointers(s') && Fifo(s') && Fill(s') >= Fill(s) && |s'.buf| == |s.buf|
            && s' == s.(buf := s'.buf, wp := s'.wp, sent := s'.sent) && (data != [] ==> |s'.sent| > |s.sent|)
  {
    hide Contents, Count, WriteCount, SpaceFree, Stored;
    SpaceFreeIs(|s.buf|, s.rp, s.wp);
    WriteCountIs(|s.buf|, s.rp, s.wp, |data|);
    var n := WriteCount(|s.buf|, s.rp, s.wp, |data|);
    StoreKeeps(s.buf, s.rp, s.wp, data[..n]);
    StoredAt(s.buf, s.wp, data[..n]);
    PublishAppends(Stored(s.buf, s.wp, data[..n]), s.rp, s.wp, n);
  }

  /** What the others know survives a pointer store of process i, which is on its way to the wake-up. */
  lemma StoreKeepsWaiting(s: Sh, s': Sh, op: Op, p: Proc, pending: bool)
    requires Pointers(s) && Pointers(s') && |s'.buf| == |s.buf| && (if op.Rd? then s'.wp == s.wp else s'.rp == s.rp)
    requires Fill(s') == Fill(s) || (!Blocked(s, op) && if op.Rd? then Fill(s') <= Fill(s) else Fill(s') >= Fill(s))
    requires WaitOk(s, p, pending)
    ensures WaitOk(s', if p.op.Rd? == op.Wr? then p.(touched := true) else p, p.op.Rd? == op.Wr? || pending)
  {
    hide Contents, Count, Later, Norm;
  }

  lemma StoredKeeps(s: St, i: nat, sh: Sh, at: At)
    requires Inv(s) && i < |s.procs| && s.sh.owner == i && (at == Wrap || at == Up)
    requires Pointers(sh) && Fifo(sh) && |sh.buf| == |s.sh.buf| && sh.owner == i
    requires var op := s.procs[i].op;
             && (if op.Rd? then sh.wp == s.sh.wp else sh.rp == s.sh.rp)
             && (Fill(sh) == Fill(s.sh) || (!Blocked(s.sh, op) && if op.Rd? then Fill(sh) <= Fill(s.sh) else Fill(sh) >= Fill(s.sh)))
    requires s.procs[i].at == Move || s.procs[i].at == Wrap
    requires ProcOk(sh, i, s.procs[i].(at := at))
    ensures Inv(St(sh, Touched(s.procs, s.procs[i].op.Wr?)[i := s.procs[i].(at := at)]))
  {
    hide Contents, Count, Later, Norm, Blocked, Fifo, WaitOk;
    var op := s.procs[i].op;
    var procs' := Touched(s.procs, op.Wr?)[i := s.procs[i].(at := at)];
    assert Pending(procs'[i], op.Rd?);
    PendingKept(s.procs, procs', i, true);
    PendingKept(s.procs, procs', i, false);
    forall k | 0 <= k < |procs'|
      ensures ProcOk(sh, k, procs'[k]) && WaitOk(sh, procs'[k], SomePending(procs', procs'[k].op.Wr?))
    {
      assert ProcOk(s.sh, k, s.procs[k]) && WaitOk(s.sh, s.procs[k], SomePending(s.procs, s.procs[k].op.Wr?));
      if k == i {
        NotWaiting(sh, procs'[k], SomePending(procs', procs'[k].op.Wr?));
      } else {
        StoreKeepsWaiting(s.sh, sh, op, s.procs[k], SomePending(s.procs, s.procs[k].op.Wr?));
        PendingMore(sh, procs'[k], op.Rd? == procs'[k].op.Wr? || SomePending(s.procs, s.procs[k].op.Wr?),
                    SomePending(procs', procs'[k].op.Wr?));
      }
    }
  }

  lemma NotWaiting(s: Sh, p: Proc, pending: bool)
    requires Pointers(s) && !Registered(p)
    ensures WaitOk(s, p, pending)
  {
  }

  lemma PendingMore(s: Sh, p: Proc, pending: bool, pending': bool)
    requires Pointers(s) && WaitOk(s, p, pending) && (pending ==> pending')
    ensures WaitOk(s, p, pending')
  {
  }

  lemma MoveKeeps(s: St, i: nat)
    requires Inv(s) && i < |s.procs| && s.procs[i].at == Move
    ensures Next(s, i, Go(false, false, false)).Some? && Inv(Next(s, i, Go(false, false, false)).value)
  {
    hide Contents, Count, Later, Norm, Blocked, Fifo, WaitOk, Moved;
    assert ProcOk(s.sh, i, s.procs[i]);
    MovedOk(s.sh, s.procs[i].op);
    MovedAt(s.sh, s.procs[i].op);
    StoredKeeps(s, i, Moved(s.sh, s.procs[i].op).value, Wrap);
  }

  lemma MovedAt(s: Sh, op: Op)
    requires Pointers(s) && s.rp < |s.buf| && s.wp < |s.buf| && Moved(s, op).Some?
    ensures var s' := Moved(s, op).value; (op.Rd? ==> s'.wp < |s.buf|) && (op.Wr? ==> s'.rp < |s.buf|)
  {
  }

  lemma WrapKeeps(s: St, i: nat)
    requires Inv(s) && i < |s.procs| && s.procs[i].at == Wrap
    ensures Inv(St(Wrapped(s.sh, s.procs[i].op), Touched(s.procs, s.procs[i].op.Wr?)[i := s.procs[i].(at := Up)]))
  {
    hide Contents, Count, Later, Blocked, WaitOk;
    assert ProcOk(s.sh, i, s.procs[i]);
    StoredKeeps(s, i, Wrapped(s.sh, s.procs[i].op), Up);
  }

  lemma WakeKeeps(s: St, i: nat)
    requires Inv(s) && i < |s.procs| && s.procs[i].at == Wake
    ensures Inv(St(s.sh, Woken(s.procs, s.procs[i].op.Wr?)[i := s.procs[i].(at := Idle)]))
  {
    hide Contents, Count, Later, Norm, Blocked, Fifo, Untouched;
    var op := s.procs[i].op;
    var procs' := Woken(s.procs, op.Wr?)[i := s.procs[i].(at := Idle)];
    PendingKept(s.procs, procs', i, !op.Rd?);
    forall k | 0 <= k < |procs'|
      ensures ProcOk(s.sh, k, procs'[k]) && WaitOk(s.sh, procs'[k], SomePending(procs', procs'[k].op.Wr?))
    {
      assert ProcOk(s.sh, k, s.procs[k]) && WaitOk(s.sh, s.procs[k], SomePending(s.procs, s.procs[k].op.Wr?));
    }
  }

  lemma FaultKeeps(s: St, i: nat, garbage: seq<int>)
    requires Inv(s) && i < |s.procs| && s.procs[i].at == Move && Faulty(s.sh, s.procs[i].op, garbage)
    ensures Inv(Next(s, i, Fault(garbage)).value)
  {
    hide Contents, Count, Later, Norm, Stored, WriteCount;
    var p, sh := s.procs[i], s.sh;
    assert ProcOk(sh, i, p);
    if p.op.Wr? {
      GarbageOk(sh, p.op.data, garbage);
      SameBuffer(s, sh.(buf := Stored(sh.buf, sh.wp, garbage)));
      OwnKeeps(St(sh.(buf := Stored(sh.buf, sh.wp, garbage)), s.procs), i, -1, p.(at := Idle));
    } else {
      OwnKeeps(s, i, -1, p.(at := Idle));
    }
  }

  lemma GarbageOk(s: Sh, data: seq<int>, garbage: seq<int>)
    requires Pointers(s) && Fifo(s) && Faulty(s, Wr(data), garbage) && !Blocked(s, Wr(data))
    ensures Fifo(s.(buf := Stored(s.buf, s.wp, garbage)))
  {
    hide Contents, Count, Stored, SpaceFree, WriteCount;
    SpaceFreeIs(|s.buf|, s.rp, s.wp);
    WriteCountIs(|s.buf|, s.rp, s.wp, |data|);
    StoreKeeps(s.buf, s.rp, s.wp, garbage);
  }

  /** The invariant depends on the buffer's bytes only through what the queue holds. */
  lemma SameBuffer(s: St, sh: Sh)
    requires Inv(s) && sh == s.sh.(buf := sh.buf) && |sh.buf| == |s.sh.buf| && Fifo(sh)
    ensures Inv(St(sh, s.procs))
  {
    hide Contents, Count, Later, Norm, Fifo;
    forall k | 0 <= k < |s.procs|
      ensures ProcOk(sh, k, s.procs[k]) && WaitOk(sh, s.procs[k], SomePending(s.procs, s.procs[k].op.Wr?))
    {
      assert ProcOk(s.sh, k, s.procs[k]) && WaitOk(s.sh, s.procs[k], SomePending(s.procs, s.procs[k].op.Wr?));
    }
  }

  /** Every step of every process keeps the invariant. */
  lemma NextKeeps(s: St, i: nat, l: Label)
    requires Inv(s) && i < |s.procs| && Next(s, i, l).Some?
    ensures Inv(Next(s, i, l).value) && |Next(s, i, l).value.procs| == |s.procs|
  {
    hide Inv, Own, Moved, Wrapped, Faulty;
    var p := s.procs[i];
    match l
    case Call(op) => CallKeeps(s, i, op);
    case Fault(garbage) => FaultKeeps(s, i, garbage);
    case Go(signal, nonblock, wpFirst) =>
      if p.at == Move { MoveKeeps(s, i); }
      else if p.at == Wrap { WrapKeeps(s, i); }
      else if p.at == Wake { WakeKeeps(s, i); }
      else { OwnStepKeeps(s, i, signal, nonblock, wpFirst); }
  }

  // ---------------------------------------------------------------- runs

  datatype Step = Step(proc: nat, what: Label)

  predicate Steps(s: St, ls: seq<Step>, s': St)
    decreases |ls|
  {
    if ls == [] then s' == s
    else
      && ls[0].proc < |s.procs| && Next(s, ls[0].proc, ls[0].what).Some?
      && Steps(Next(s, ls[0].proc, ls[0].what).value, ls[1..], s')
  }

  lemma {:induction false} StepsKeep(s: St, ls: seq<Step>, s': St)
    requires Inv(s) && Steps(s, ls, s')
    ensures Inv(s')
    decreases |ls|
  {
    hide Inv, Next;
    if ls != [] {
      NextKeeps(s, ls[0].proc, ls[0].what);
      StepsKeep(Next(s, ls[0].proc, ls[0].what).value, ls[1..], s');
    }
  }

  /** In every state of every run of any number of processes: the bytes delivered, followed by those in
      the buffer, are the bytes accepted, in order, and at most one less than the buffer's size are in it;
      and a writer asleep though there is space, or a reader asleep though there is data, if it has not
      been woken, has another process between its pointer store and the end of its wake-up call. */
  lemma RunOk(buf: seq<int>, n: nat, ls: seq<Step>, s: St)
    requires buf != [] && Steps(Init(buf, n), ls, s)
    ensures Pointers(s.sh)
    ensures s.sh.got + Contents(s.sh.buf, Norm(|s.sh.buf|, s.sh.rp), Norm(|s.sh.buf|, s.sh.wp)) == s.sh.sent
    ensures |s.sh.sent| - |s.sh.got| <= |s.sh.buf| - 1
    ensures forall i :: 0 <= i < |s.procs| && s.procs[i].at == Asleep && !s.procs[i].woken && !Blocked(s.sh, s.procs[i].op) ==>
              exists j :: 0 <= j < |s.procs| && j != i && Pending(s.procs[j], s.procs[i].op.Wr?)
  {
    hide Steps, Init, Next, ProcOk, Blocked;
    InitOk(buf, n);
    StepsKeep(Init(buf, n), ls, s);
    forall i | 0 <= i < |s.procs| && s.procs[i].at == Asleep && !s.procs[i].woken && !Blocked(s.sh, s.procs[i].op)
      ensures exists j :: 0 <= j < |s.procs| && j != i && Pending(s.procs[j], s.procs[i].op.Wr?)
    {
      assert WaitOk(s.sh, s.procs[i], SomePending(s.procs, s.procs[i].op.Wr?));
      var j :| 0 <= j < |s.procs| && Pending(s.procs[j], s.procs[i].op.Wr?);
      assert j != i;
    }
  }

  /** A call that gets to its data section with a length other than zero moves at least one byte. */
  lemma MovesSomething(s: St, i: nat)
    requires Inv(s) && i < |s.procs| && s.procs[i].at == Move
    ensures var op, sh := s.procs[i].op, Moved(s.sh, s.procs[i].op);
            && sh.Some?
            && (op.Rd? && op.count > 0 ==> |sh.value.got| > |s.sh.got|)
            && (op.Wr? && op.data != [] ==> |sh.value.sent| > |s.sh.sent|)
  {
    hide Contents, Count, WaitOk, Moved;
    assert ProcOk(s.sh, i, s.procs[i]);
    if s.procs[i].op.Rd? {
      ReadOk(s.sh, s.procs[i].op.count);
    } else {
      WriteOk(s.sh, s.procs[i].op.data);
    }
  }

  /** When a call returns: after its wake-up, the data moved; on a fault or a signal; or at once, if it is not
      to block and there is really nothing to read, no space to write. */
  lemma ReturnsOnly(s: St, i: nat, l: Label)
    requires Inv(s) && i < |s.procs| && s.procs[i].at != Idle && Next(s, i, l).Some? && Next(s, i, l).value.procs[i].at == Idle
    ensures l.Fault? || (l.Go? && (l.signal || s.procs[i].at == Wake || (l.nonblock && Blocked(s.sh, s.procs[i].op))))
  {
    hide Contents, Count, WaitOk, Moved, Fifo, Later, Norm, Blocked;
    assert ProcOk(s.sh, i, s.procs[i]);
  }

  /** ... and when it does not: a call that is not to block never gets to its wait queue, and no writer that
      has been awake with a signal pending and no reader with one goes to sleep again. */
  lemma NotAsleep(s: St, i: nat, l: Label)
    requires i < |s.procs| && Next(s, i, l).Some? && l.Go?
    ensures l.nonblock && s.procs[i].at == Release ==> Next(s, i, l).value.procs[i].at == Idle
    ensures l.signal && s.procs[i].op.Rd? && s.procs[i].at != Asleep ==> Next(s, i, l).value.procs[i].at != Asleep
    ensures l.signal && s.procs[i].op.Wr? && s.procs[i].at == Asleep ==> Next(s, i, l).value.procs[i].at == Idle
  {
    hide Contents, Count, Moved, Later;
  }

  /** A process about to test its condition, with nothing but what is there now in hand. */
  predicate Fresh(s: Sh, p: Proc) {
    match p.at
    case Down => s.owner == -1
    case Test => true
    case Prepare => s.owner == -1
    case Asleep => s.owner == -1 && p.woken
    case Peek(_, differ, seen) => s.owner == -1 && (seen == Nothing || seen == SawRp(s.rp)) && (differ ==> p.op.Wr? && s.rp != s.wp)
    case _ => false
  }

  function Distance(at: At): nat {
    match at
    case Asleep => 8
    case Prepare => 7
    case Peek(_, differ, seen) => if differ then (if seen == Nothing then 4 else 3) else if seen == Nothing then 6 else 5
    case Down => 2
    case Test => 1
    case _ => 0
  }

  lemma PeekOn(s: Sh, p: Proc)
    requires Pointers(s) && s.rp < |s.buf| && s.wp < |s.buf| && p.at.Peek? && Fresh(s, p) && !Blocked(s, p.op)
    ensures Distance(PeekStep(s, p, false, false)) < Distance(p.at) && Fresh(s, p.(at := PeekStep(s, p, false, false)))
  {
    hide Count, Norm;
    SpaceFreeIs(|s.buf|, s.rp, s.wp);
    NormIs(s);
  }

  lemma NormIs(s: Sh)
    requires Pointers(s) && s.rp < |s.buf| && s.wp < |s.buf|
    ensures Norm(|s.buf|, s.rp) == s.rp && Norm(|s.buf|, s.wp) == s.wp && Fill(s) == Count(|s.buf|, s.rp, s.wp)
  {
  }

  lemma OnceMore(s: St, i: nat)
    requires Inv(s) && i < |s.procs| && Fresh(s.sh, s.procs[i]) && !Blocked(s.sh, s.procs[i].op)
    ensures Next(s, i, Go(false, false, false)).Some?
    ensures var s' := Next(s, i, Go(false, false, false)).value;
            && |s'.procs| == |s.procs| && s'.procs[i].op == s.procs[i].op
            && s'.sh == s.sh.(owner := if s.procs[i].at == Down || s.procs[i].at == Test then i else -1)
            && if s.procs[i].at == Test then s'.procs[i].at == Move
               else Fresh(s'.sh, s'.procs[i]) && Distance(s'.procs[i].at) < Distance(s.procs[i].at)
  {
    hide Contents, Count, Norm, WaitOk, Fifo, PeekStep, Later, SpaceFree, Blocked;
    var p := s.procs[i];
    assert ProcOk(s.sh, i, p);
    if p.at.Peek? {
      PeekOn(s.sh, p);
    } else if p.at == Test {
      CanGoIs(s.sh, p.op);
    }
  }

  /** Waking up is not in vain: a process that has been woken, or has not gone to sleep, gets to move its data by
      its own steps alone if there is something to read, or space to write, and the semaphore is free. */
  lemma {:induction false} GetsThrough(s: St, i: nat) returns (ls: seq<Step>, s': St)
    requires Inv(s) && i < |s.procs| && Fresh(s.sh, s.procs[i]) && !Blocked(s.sh, s.procs[i].op)
    ensures Steps(s, ls, s') && forall l :: l in ls ==> l == Step(i, Go(false, false, false))
    ensures |s'.procs| == |s.procs| && s'.procs[i].at == Move && s'.procs[i].op == s.procs[i].op && s'.sh == s.sh.(owner := i)
    decreases Distance(s.procs[i].at)
  {
    hide Inv, Next, Fresh, Blocked, Distance;
    var l := Step(i, Go(false, false, false));
    OnceMore(s, i);
    NextKeeps(s, i, l.what);
    var s1 := Next(s, i, l.what).value;
    if s.procs[i].at == Test {
      assert Steps(s1, [], s1);
      ls, s' := [l], s1;
    } else {
      SameBlocked(s, s1.sh, s.procs[i].op);
      var rest;
      rest, s' := GetsThrough(s1, i);
      ls := [l] + rest;
    }
  }

  lemma SameBlocked(s: St, sh: Sh, op: Op)
    requires Inv(s) && sh == s.sh.(owner := sh.owner)
    ensures Pointers(sh) && Blocked(sh, op) == Blocked(s.sh, op)
  {
    hide ProcOk, WaitOk, Fifo, Count, Norm;
  }
}
