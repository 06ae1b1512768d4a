/** When a writer of the printer driver is never woken: a torn read of the tail can send it to sleep on
    an empty ring, and the wake-up test takes an empty ring for a full one. */
module ShortPrintLost {
  import opened Options
  import opened Ring
  import opened ShortPrint

  /** No signal reaches the writer. */
  predicate Unsignalled(ls: seq<Label>) {
    forall l :: l in ls ==> l != Writer(true)
  }

  /** A sleeping writer that no wake-up has reached. */
  predicate Sleeping(s: St) {
    s.writer == Asleep && !s.woken
  }

  /** With one byte left, a sleeping writer that has not been woken is about to be. */
  lemma LastByte(s: St)
    requires Inv(s) && |s.buf| >= 3 && Sleeping(s) && Count(|s.buf|, s.tail, s.head) == 1
    ensures s.worker == Check && MuchFree(s)
  {
    hide WriterOk, Fifo, NoStall, Gap;
    GapIs(s);
  }

  lemma AdvanceAsleep(s: St)
    requires Inv(s) && |s.buf| >= 3 && Sleeping(s) && s.worker == Advance
    ensures var s' := WorkerStep(s).value; s'.head != s'.tail
    ensures var s' := WorkerStep(s).value; Count(|s.buf|, s'.tail, s'.head) < Count(|s.buf|, s.tail, s.head)
  {
    hide WriterOk, Fifo, NoStall, Gap, WakeOk;
    if Count(|s.buf|, s.tail, s.head) == 1 {
      LastByte(s);
    }
  }

  lemma WorkerAsleep(s: St)
    requires Inv(s) && |s.buf| >= 3 && Sleeping(s) && WorkerStep(s).Some?
    ensures var s' := WorkerStep(s).value;
            && s'.writer == Asleep && |s'.buf| == |s.buf|
            && (s.head == s.tail ==> !s'.woken && s'.head == s'.tail)
            && (s.head != s.tail ==> s'.woken || s'.head != s'.tail)
  {
    hide Contents, WriterOk, Fifo, NoStall, WakeOk, Gap, MuchFree;
    if s.worker == Advance {
      AdvanceAsleep(s);
    } else if s.worker == Check && s.head == s.tail {
      EmptyIsFull(s);
    }
  }

  /** The wake-up test takes an empty ring for a full one. */
  lemma EmptyIsFull(s: St)
    requires Shape(s) && s.head == s.tail
    ensures !MuchFree(s)
  {
    GapIs(s);
  }

  /** One step of anybody while the writer sleeps: on an empty ring it goes on sleeping on an empty
      ring; with data queued it is woken before the ring gets empty. */
  lemma AsleepStep(s: St, l: Label)
    requires Inv(s) && |s.buf| >= 3 && Sleeping(s) && l != Writer(true) && Next(s, l).Some?
    ensures var s' := Next(s, l).value;
            && s'.writer == Asleep && |s'.buf| == |s.buf|
            && (s.head == s.tail ==> !s'.woken && s'.head == s'.tail)
            && (s.head != s.tail ==> s'.woken || s'.head != s'.tail)
  {
    hide Inv, WorkerStep, MuchFree;
    if l == Worker {
      WorkerAsleep(s);
    }
  }

  /** Asleep on an empty ring, the writer is lost: whatever happens, short of a signal, it is not woken. */
  lemma {:induction false} LostForever(s: St, ls: seq<Label>, s': St)
    requires Inv(s) && |s.buf| >= 3 && Sleeping(s) && s.head == s.tail && Unsignalled(ls) && Steps(s, ls, s')
    ensures Sleeping(s') && s'.head == s'.tail
    decreases |ls|
  {
    hide Inv, Next;
    if ls != [] {
      assert ls[0] in ls && forall l :: l in ls[1..] ==> l in ls;
      NextKeeps(s, ls[0]);
      AsleepStep(s, ls[0]);
      LostForever(Next(s, ls[0]).value, ls[1..], s');
    }
  }

  // ---------------------------------------------------------------- with data queued it is woken

  function Rank(w: WorkerAt): nat {
    match w
    case Advance => 0 case Strobe => 1 case Locked => 2 case Begun => 3 case Rest => 4 case Finish => 5 case Check => 6
    case StopTimer => 7 case SetIdle => 8
  }

  /** What happens next on the way to the wake-up. */
  function Urge(s: St): Label {
    if s.worker == Rest && !s.queued then Irq else Worker
  }

  lemma UrgeStep(s: St)
    requires Inv(s) && |s.buf| >= 3 && Sleeping(s) && s.head != s.tail
    ensures Next(s, Urge(s)).Some?
    ensures var s' := Next(s, Urge(s)).value;
            || s'.woken
            || (var c, c' := Count(|s.buf|, s.tail, s.head), Count(|s.buf|, s'.tail, s'.head);
                c' < c || (c' == c && (Rank(s'.worker) < Rank(s.worker) ||
                  (s'.worker == s.worker && ((s'.queued && !s.queued) || (s'.queued == s.queued && s'.irq && !s.irq))))))
  {
    hide Contents, WriterOk, Fifo, WakeOk, Gap, Count;
    if s.worker == Advance {
      AdvanceAsleep(s);
    }
  }

  /** With data queued there is always a way on, without a signal, that wakes the writer. */
  lemma {:induction false} Rescued(s: St) returns (ls: seq<Label>, s': St)
    requires Inv(s) && |s.buf| >= 3 && s.writer == Asleep && (s.head != s.tail || s.woken)
    ensures Unsignalled(ls) && Steps(s, ls, s') && s'.writer == Asleep && s'.woken
    decreases if s.woken then 0 else 1, if s.head < |s.buf| && s.tail < |s.buf| then Count(|s.buf|, s.tail, s.head) else 0,
              Rank(s.worker), if s.queued then 0 else 1, if s.irq then 0 else 1
  {
    hide Inv, Next, Rank, Count, Gap;
    if s.woken {
      return [], s;
    }
    InvShape(s);
    var l := Urge(s);
    UrgeStep(s);
    NextKeeps(s, l);
    AsleepStep(s, l);
    var s1 := Next(s, l).value;
    InvShape(s1);
    var rest, s2 := Rescued(s1);
    assert ([l] + rest)[1..] == rest;
    return [l] + rest, s2;
  }

  lemma InvShape(s: St)
    requires Inv(s)
    ensures Shape(s)
  {
  }

  /** A sleeping writer can still be woken by what the driver does if and only if there is data queued. */
  lemma LostExactly(s: St)
    requires Inv(s) && |s.buf| >= 3 && Sleeping(s)
    ensures (exists ls, s' :: Unsignalled(ls) && Steps(s, ls, s') && s'.woken) <==> s.head != s.tail
  {
    hide Inv, Next, Steps;
    if s.head != s.tail {
      var ls, s' := Rescued(s);
    } else {
      forall ls, s' | Unsignalled(ls) && Steps(s, ls, s')
        ensures !s'.woken
      {
        LostForever(s, ls, s');
      }
    }
  }

  /** Nobody will wake the writer any more, short of a signal. */
  predicate Lost(s: St) {
    Sleeping(s) && s.head == s.tail
  }

  /** The one step that loses the writer: it has joined the queue, reads a tail that is not above the
      head for the second time, and the ring is empty. */
  predicate Loses(s: St, l: Label) {
    l == Writer(false) && s.writer == Look2(Armed, false) && s.head == s.tail && !s.woken
  }

  lemma WriterLoses(s: St, signal: bool)
    requires Shape(s) && |s.buf| >= 2 && !Lost(s) && WriterStep(s, signal).Some?
    ensures Lost(WriterStep(s, signal).value) <==> Loses(s, Writer(signal))
  {
    if s.writer.Look2? {
      hide Looked, Space;
      LookedLoses(s, signal);
    } else {
      hide WriterStep;
      OnlyLookSleeps(s, signal);
    }
  }

  lemma OnlyLookSleeps(s: St, signal: bool)
    requires WriterStep(s, signal).Some? && !s.writer.Look2?
    ensures WriterStep(s, signal).value.writer != Asleep
  {
    hide Looked, Space, Stored, Forward, Ended, LockFree;
    match s.writer
    case Loop => EndedAway(s);
    case Look(place) =>
    case Prepare =>
    case Asleep =>
    case Copy(space) =>
    case Publish(space) =>
    case Activate =>
  }

  lemma EndedAway(s: St)
    ensures Ended(s).writer == Away
  {
  }

  lemma LookedLoses(s: St, signal: bool)
    requires Shape(s) && |s.buf| >= 2 && s.writer.Look2?
    ensures Lost(Looked(s, s.writer.place, Space(s, s.writer.above), signal)) <==> Loses(s, Writer(signal))
  {
    hide Space, Looked;
    var space := Space(s, s.writer.above);
    LookedWriter(s, s.writer.place, space, signal);
    if s.head == s.tail {
      SpaceEmpty(s, s.writer.above);
    }
  }

  lemma LookedWriter(s: St, place: Place, space: int, signal: bool)
    ensures var s' := Looked(s, place, space, signal);
            && (s'.writer == Asleep <==> space <= 0 && place == Armed && !signal)
            && s'.head == s.head && s'.tail == s.tail && s'.woken == s.woken
  {
  }

  /** An empty ring has space, unless the tail is taken to be above the head. */
  lemma SpaceEmpty(s: St, above: bool)
    requires Shape(s) && |s.buf| >= 2 && s.head == s.tail
    ensures Space(s, above) > 0 <==> above
  {
  }

  /** The others do not put the writer to sleep. */
  lemma OthersLeave(s: St, l: Label)
    requires Next(s, l).Some? && !l.Writer? && !Sleeping(s)
    ensures !Sleeping(Next(s, l).value)
  {
    hide MuchFree, Stored, Forward, TimeoutStep, WorkerStep;
    if l == Worker {
      WorkerLeaves(s);
    } else if l.Timeout? {
      TimeoutFrame(s, l.busy);
    }
  }

  lemma WorkerLeaves(s: St)
    requires WorkerStep(s).Some?
    ensures var s' := WorkerStep(s).value; s'.writer == s.writer && (s.woken ==> s'.woken)
  {
    hide MuchFree, Forward;
  }

  lemma IdleLeave(s: St, l: Label)
    requires Next(s, l).Some? && !l.Writer? && l != Worker && Sleeping(s)
    ensures Lost(Next(s, l).value) <==> Lost(s)
  {
    hide WorkerStep, TimeoutStep, Stored;
    if l.Timeout? {
      TimeoutFrame(s, l.busy);
    }
  }

  /** The writer gets lost in this step and in no other. */
  lemma LosingStep(s: St, l: Label)
    requires Inv(s) && |s.buf| >= 3 && !Lost(s) && Next(s, l).Some?
    ensures Lost(Next(s, l).value) <==> Loses(s, l)
  {
    hide Inv, WorkerStep, WriterStep, Next;
    InvShape(s);
    if l.Writer? {
      StepIsWriter(s, l);
      WriterLoses(s, l.signal);
    } else if !Sleeping(s) {
      OthersLeave(s, l);
    } else if l == Worker {
      AsleepStep(s, l);
    } else {
      IdleLeave(s, l);
    }
  }

  lemma StepIsWriter(s: St, l: Label)
    requires l.Writer?
    ensures Next(s, l) == WriterStep(s, l.signal)
  {
    hide WriterStep;
  }

  // ---------------------------------------------------------------- and it can happen

  /** Some run without a signal leads from s0 to s. */
  ghost predicate Reachable(s0: St, s: St) {
    exists ls :: Unsignalled(ls) && Steps(s0, ls, s)
  }

  lemma {:induction false} StepsMore(s0: St, ls: seq<Label>, s: St, l: Label)
    requires Steps(s0, ls, s) && Next(s, l).Some?
    ensures Steps(s0, ls + [l], Next(s, l).value)
    decreases |ls|
  {
    hide Next;
    if ls == [] {
      assert (ls + [l])[1..] == [];
    } else {
      assert (ls + [l])[1..] == ls[1..] + [l];
      StepsMore(Next(s0, ls[0]).value, ls[1..], s, l);
    }
  }

  lemma More(s0: St, s: St, l: Label) returns (t: St)
    requires Reachable(s0, s) && l != Writer(true) && Next(s, l).Some?
    ensures Next(s, l) == Some(t) && Reachable(s0, t)
  {
    hide Next, Steps;
    var ls :| Unsignalled(ls) && Steps(s0, ls, s);
    t := Next(s, l).value;
    StepsMore(s0, ls, s, l);
    assert Unsignalled(ls + [l]);
  }

  /** The printer's interrupt queues the work. */
  lemma Kick(s0: St, s: St) returns (t: St)
    requires Reachable(s0, s) && s.active && !s.irq
    ensures Reachable(s0, t) && t == s.(queued := true)
  {
    hide Reachable;
    t := More(s0, s, Irq);
    t := More(s0, t, Irq);
  }

  /** The work function starts and looks whether the ring is empty. */
  lemma Start(s0: St, s: St) returns (t: St)
    requires Reachable(s0, s) && s.worker == Rest && s.queued
    ensures Reachable(s0, t) && t == s.(queued := false, worker := if s.head == s.tail then SetIdle else Strobe)
  {
    hide Reachable;
    t := More(s0, s, Worker);
    t := More(s0, t, Worker);
    t := More(s0, t, Worker);
  }

  /** One run of the work function that sends a byte. */
  lemma Send(s0: St, s: St) returns (t: St)
    requires Reachable(s0, s) && s.worker == Rest && s.queued && s.head != s.tail && s.tail < |s.buf|
    ensures Reachable(s0, t)
    ensures t == s.(queued := false, timer := true, out := t.out, moved := true, tail := Forward(|s.buf|, s.tail, 1), woken := t.woken)
    ensures t.woken == (s.woken || Gap(|s.buf|, t.tail, s.head) > |s.buf| / 2)
  {
    hide Reachable, Gap, Forward;
    t := Start(s0, s);
    t := More(s0, t, Worker);
    t := More(s0, t, Worker);
    t := More(s0, t, Worker);
    t := More(s0, t, Worker);
  }

  /** One run of the work function on an empty ring. */
  lemma Idle(s0: St, s: St) returns (t: St)
    requires Reachable(s0, s) && s.worker == Rest && s.queued && s.head == s.tail < |s.buf|
    ensures Reachable(s0, t) && t == s.(queued := false, active := false, timer := false)
  {
    hide Reachable, Gap;
    GapIs(s.(written := 0));
    t := Start(s0, s);
    t := More(s0, t, Worker);
    t := More(s0, t, Worker);
    t := More(s0, t, Worker);
    t := More(s0, t, Worker);
  }

  /** The writer finds space for n bytes. */
  lemma Find(s0: St, s: St, n: nat) returns (t: St)
    requires Reachable(s0, s) && s.writer == Loop && s.tail <= s.head < |s.buf|
    requires 0 < n && s.written + n <= |s.data|
    requires n == if Space(s, true) + s.written > |s.data| then |s.data| - s.written else Space(s, true)
    ensures Reachable(s0, t) && t == s.(writer := Copy(n))
  {
    hide Reachable;
    t := More(s0, s, Writer(false));
    t := More(s0, t, Writer(false));
    t := More(s0, t, Writer(false));
  }

  /** The writer fills n bytes of space at once. */
  lemma Fill(s0: St, s: St, n: nat) returns (t: St)
    requires Reachable(s0, s) && s.writer == Loop && s.worker == Rest && s.tail <= s.head < |s.buf| && !s.active
    requires 0 < n && s.written + n <= |s.data| && s.head + n <= |s.buf|
    requires n == if Space(s, true) + s.written > |s.data| then |s.data| - s.written else Space(s, true)
    ensures Reachable(s0, t)
    ensures t == s.(buf := t.buf, head := Forward(|s.buf|, s.head, n), written := s.written + n, active := true, timer := true, queued := true)
    ensures |t.buf| == |s.buf|
  {
    hide Reachable, Forward, Stored;
    t := Find(s0, s, n);
    t := More(s0, t, Writer(false));
    t := More(s0, t, Writer(false));
    t := More(s0, t, Writer(false));
  }

  /** The writer finds the ring full and goes to sleep. */
  lemma Sleep(s0: St, s: St) returns (t: St)
    requires Reachable(s0, s) && s.writer == Loop && s.written < |s.data| && s.tail == s.head + 1
    ensures Reachable(s0, t) && t == s.(writer := Asleep, woken := false, moved := false)
  {
    hide Reachable, Next;
    t := LooksTwice(s0, s);
    t := LooksOnceMore(s0, t);
  }

  lemma LooksTwice(s0: St, s: St) returns (t: St)
    requires Reachable(s0, s) && s.writer == Loop && s.written < |s.data| && s.tail == s.head + 1
    ensures Reachable(s0, t) && t == s.(writer := Prepare)
  {
    hide Reachable;
    t := More(s0, s, Writer(false));
    t := More(s0, t, Writer(false));
    t := More(s0, t, Writer(false));
    t := More(s0, t, Writer(false));
    t := More(s0, t, Writer(false));
  }

  lemma LooksOnceMore(s0: St, s: St) returns (t: St)
    requires Reachable(s0, s) && s.writer == Prepare && s.tail == s.head + 1
    ensures Reachable(s0, t) && t == s.(writer := Asleep, woken := false, moved := false)
  {
    hide Reachable;
    t := More(s0, s, Writer(false));
    t := More(s0, t, Writer(false));
    t := More(s0, t, Writer(false));
  }

  /** All bytes but the last are sent; the writer has been woken by then. */
  lemma {:induction false} Drain(s0: St, s: St) returns (t: St)
    requires Reachable(s0, s) && |s.buf| >= 3 && s.worker == Rest && s.active && !s.irq && s.head == 0 < s.tail < |s.buf| - 1
    ensures Reachable(s0, t) && t.woken
    ensures t == s.(queued := false, timer := true, out := t.out, moved := true, tail := |s.buf| - 1, woken := t.woken)
    decreases |s.buf| - s.tail
  {
    hide Reachable, Gap;
    t := Kick(s0, s);
    t := Send(s0, t);
    if t.tail < |s.buf| - 1 {
      t := Drain(s0, t);
    } else {
      GapIs(t.(written := 0));
    }
  }

  /** A whole run into it, for every size of the ring: one byte is printed, then one byte more than
      fits is written. The writer, woken, looks again; between its two reads of the tail the last byte
      leaves. */
  lemma LostReachable(buf: seq<int>) returns (s: St)
    requires |buf| >= 3
    ensures Reachable(Init(buf), s) && Sleeping(s) && s.head == s.tail
    ensures !s.active && !s.timer && !s.queued && !s.irq && s.worker == Rest && s.timeout == Quiet
    ensures s.written < |s.data|
  {
    hide Reachable, Gap;
    var s0 := Init(buf);
    s := OneByte(buf);
    s := More(s0, s, Begin(seq(|buf|, _ => 0)));
    s := Fill(s0, s, |buf| - 1);
    s := Sleep(s0, s);
    s := Drain(s0, s);
    s := More(s0, s, Writer(false));
    s := More(s0, s, Writer(false));
    s := More(s0, s, Writer(false));
    s := Kick(s0, s);
    s := Send(s0, s);
    GapIs(s.(written := 0));
    s := More(s0, s, Writer(false));
    s := Kick(s0, s);
    s := Idle(s0, s);
  }

  lemma OneByte(buf: seq<int>) returns (s: St)
    requires |buf| >= 3
    ensures Reachable(Init(buf), s)
    ensures s == Init(buf).(buf := s.buf, head := 1, tail := 1, out := s.out, chunks := s.chunks, moved := true, woken := s.woken)
    ensures |s.buf| == |buf|
  {
    hide Reachable, Gap;
    var s0 := Init(buf);
    assert Reachable(s0, s0) by { StartReachable(s0); }
    s := More(s0, s0, Begin([0]));
    s := Fill(s0, s, 1);
    s := More(s0, s, Writer(false));
    s := Send(s0, s);
    s := Kick(s0, s);
    s := Idle(s0, s);
  }

  lemma StartReachable(s: St)
    ensures Reachable(s, s)
  {
    assert Steps(s, [], s) && Unsignalled([]);
  }
}
