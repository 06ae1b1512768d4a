/** The output side of the parallel printer driver as a state machine: one writer at a time under the
    semaphore, the work function, the interrupt handler and the timer, interleaved at the accesses to
    the variables they share. The writer computes the free space without the lock, from two separate
    reads of the tail. */
module ShortPrint {
  import opened BitStream
  import opened Options
  import opened Ring

  // The three places from which the writer calls shortp_out_space: before wait_event, by its first
  // test, and by the test between prepare_to_wait and schedule.
  datatype Place = First | Early | Armed

  datatype WriterAt =
    | Away                                    // nobody is writing
    | Loop                                    // while (written < count)
    | Look(place: Place)                      // about to compare head and tail
    | Look2(place: Place, above: bool)        // about to read the tail again
    | Prepare                                 // prepare_to_wait
    | Asleep                                  // schedule
    | Copy(space: int)                        // copy_from_user
    | Publish(space: int)                     // shortp_incr_out_bp(&shortp_out_head)
    | Activate                                // start output if it is not active

  datatype WorkerAt =
    | Rest | Begun                            // not running; waiting for the printer
    | Locked                                  // lock held: is the buffer empty?
    | SetIdle | StopTimer                     // it was
    | Strobe | Advance                        // it was not: send a byte, move the tail
    | Check                                   // wake up the writer?
    | Finish                                  // lock released

  datatype TimeoutAt = Quiet | SeeActive | SeeStatus | Call | Queue

  datatype St = St(
    buf: seq<int>, head: nat, tail: nat,
    active: bool,                             // shortp_output_active
    timer: bool,                              // the timer is pending
    queued: bool,                             // the work is queued
    worker: WorkerAt, timeout: TimeoutAt, irq: bool,
    writer: WriterAt, data: seq<int>, written: nat,
    woken: bool,                              // woken up since prepare_to_wait
    // the past: bytes strobed out, the accepted bytes of finished calls, and whether the tail has
    // moved since prepare_to_wait
    out: seq<int>, chunks: seq<seq<int>>, moved: bool)

  datatype Label =
    | Begin(data: seq<int>)                   // a process gets the semaphore
    | Writer(signal: bool)                    // its next step; is a signal pending?
    | Fault(garbage: seq<int>)                // copy_from_user fails, having stored this much
    | Worker | Irq
    | Expire | Timeout(busy: bool)

  function Init(buf: seq<int>): St {
    St(buf, 0, 0, false, false, false, Rest, Quiet, false, Away, [], 0, false, [], [], false)
  }

  /** (PAGE_SIZE + shortp_out_tail - shortp_out_head) % PAGE_SIZE */
  function Gap(size: nat, tail: nat, head: nat): int
    requires size > 0
  {
    (size + tail - head) % size
  }

  /** The wake-up condition, against SP_MIN_SPACE. */
  predicate MuchFree(s: St)
    requires |s.buf| > 0
  {
    Gap(|s.buf|, s.tail, s.head) > |s.buf| / 2
  }

  /** What shortp_out_space returns from the second read of the tail on. */
  function Space(s: St, above: bool): int {
    if above then |s.buf| - s.head - (if s.tail == 0 then 1 else 0)
    else s.tail - s.head - 1
  }

  /** Work behind shortp_out_space. */
  function Looked(s: St, place: Place, space: int, signal: bool): St {
    if space > 0 then
      s.(writer := Copy(if space + s.written > |s.data| then |s.data| - s.written else space))
    else match place
      case First => s.(writer := Look(Early))
      case Early => s.(writer := Prepare)
      case Armed => if signal then Ended(s) else s.(writer := Asleep)
  }

  /** The call returns. */
  function Ended(s: St): St {
    s.(writer := Away, chunks := s.chunks + [if s.written <= |s.data| then s.data[..s.written] else []], data := [], written := 0)
  }

  predicate LockFree(s: St) {
    s.worker == Rest || s.worker == Begun || s.worker == Finish
  }

  function WriterStep(s: St, signal: bool): Option<St> {
    match s.writer
    case Away => None
    case Loop => Some(if s.written < |s.data| then s.(writer := Look(First)) else Ended(s))
    case Look(place) => Some(s.(writer := Look2(place, s.head >= s.tail)))
    case Look2(place, above) => Some(Looked(s, place, Space(s, above), signal))
    case Prepare => Some(s.(writer := Look(Armed), woken := false, moved := false))
    case Asleep => if s.woken || signal then Some(s.(writer := Prepare)) else None
    case Copy(space) =>
      if 0 < space && s.written + space <= |s.data| && s.head + space <= |s.buf| then
        Some(s.(writer := Publish(space), buf := Stored(s.buf, s.head, s.data[s.written..s.written + space])))
      else None
    case Publish(space) =>
      if 0 < space && s.head < |s.buf| && s.head + space <= |s.buf| then
        Some(s.(writer := Activate, head := Forward(|s.buf|, s.head, space), written := s.written + space))
      else None
    case Activate =>
      if !LockFree(s) then None
      else if s.active then Some(s.(writer := Loop))
      else Some(s.(writer := Loop, active := true, timer := true, queued := true))
  }

  function WorkerStep(s: St): Option<St> {
    match s.worker
    case Rest => if s.queued then Some(s.(queued := false, worker := Begun)) else None
    case Begun => Some(s.(worker := Locked))
    case Locked => Some(s.(worker := if s.head == s.tail then SetIdle else Strobe))
    case SetIdle => Some(s.(active := false, worker := StopTimer))
    case StopTimer => Some(s.(timer := false, worker := Check))
    case Strobe => if s.tail < |s.buf| then Some(s.(timer := true, out := s.out + [s.buf[s.tail]], worker := Advance)) else None
    case Advance =>
      if s.tail < |s.buf| then Some(s.(tail := Forward(|s.buf|, s.tail, 1), moved := true, worker := Check)) else None
    case Check => if |s.buf| > 0 then Some(s.(woken := s.woken || MuchFree(s), worker := Finish)) else None
    case Finish => Some(s.(worker := Rest))
  }

  function TimeoutStep(s: St, busy: bool): Option<St> {
    match s.timeout
    case Quiet => None
    case SeeActive => Some(s.(timeout := if s.active then SeeStatus else Quiet))
    case SeeStatus =>
      if !LockFree(s) then None
      else if busy then Some(s.(timer := true, timeout := Quiet))
      else Some(s.(timeout := Call))
    case Call => Some(s.(timeout := if s.active then Queue else Quiet))
    case Queue => Some(s.(queued := true, timeout := Quiet))
  }

  function Next(s: St, l: Label): Option<St> {
    match l
    case Begin(data) => if s.writer == Away then Some(s.(writer := Loop, data := data, written := 0)) else None
    case Writer(signal) => WriterStep(s, signal)
    case Fault(garbage) =>
      if s.writer.Copy? && |garbage| <= s.writer.space && s.head + |garbage| <= |s.buf| then
        Some(Ended(s.(buf := Stored(s.buf, s.head, garbage))))
      else None
    case Worker => WorkerStep(s)
    case Irq => Some(if s.irq then s.(irq := false, queued := true) else s.(irq := s.active))
    case Expire => if s.timer && s.timeout == Quiet then Some(s.(timer := false, timeout := SeeActive)) else None
    case Timeout(busy) => TimeoutStep(s, busy)
  }

  // ---------------------------------------------------------------- what every step keeps

  function Flat(chunks: seq<seq<int>>): seq<int> {
    if chunks == [] then [] else Flat(chunks[..|chunks| - 1]) + chunks[|chunks| - 1]
  }

  predicate Shape(s: St) {
    s.head < |s.buf| && s.tail < |s.buf| && s.written <= |s.data|
  }

  /** The bytes in the ring that have not been strobed out. */
  function Unsent(s: St): seq<int>
    requires Shape(s) && (s.worker == Advance ==> s.head != s.tail)
  {
    Contents(s.buf, s.tail, s.head)[if s.worker == Advance then 1 else 0..]
  }

  /** Everything that calls have accepted so far, call after call. */
  function Taken(s: St): seq<int>
    requires Shape(s)
  {
    Flat(s.chunks) + s.data[..s.written]
  }

  /** What the writer computed from stale reads of the tail is safe: the tail has only moved on. */
  predicate WriterOk(s: St)
    requires Shape(s)
  {
    match s.writer
    case Away => s.written == 0 && s.data == []
    case Look2(_, above) => s.written < |s.data| && (above ==> s.tail <= s.head)
    case Copy(space) => Fits(s, space)
    case Loop => true
    case Activate => true
    case Publish(space) => Fits(s, space) && s.buf[s.head..s.head + space] == s.data[s.written..s.written + space]
    case _ => s.written < |s.data|
  }

  predicate Fits(s: St, space: int)
    requires Shape(s)
  {
    0 < space && s.written + space <= |s.data| && s.head + space <= |s.buf| && Count(|s.buf|, s.tail, s.head) + space < |s.buf|
  }

  predicate WorkerOk(s: St) {
    && (s.worker == Strobe || s.worker == Advance ==> s.head != s.tail)
    && (s.worker == SetIdle ==> s.head == s.tail || s.writer == Activate)
    && (s.worker == StopTimer ==> !s.active)
  }

  /** First in, first out: what has been strobed out and what the ring still holds is exactly what the
      calls have accepted, each call's bytes together. */
  predicate Fifo(s: St)
    requires Shape(s) && WorkerOk(s)
  {
    s.out + Unsent(s) == Taken(s)
  }

  /** Data pending means that output is active or the writer is about to make it so; and active output
      has something that will go on with it. */
  predicate NoStall(s: St) {
    && (s.head != s.tail ==> s.active || s.writer == Activate)
    && (s.active ==> s.timer || s.timeout != Quiet || s.queued || s.worker == Begun || s.worker == Locked ||
                     s.worker == SetIdle || s.worker == Strobe)
  }

  /** Between prepare_to_wait and finish_wait. */
  predicate Waiting(s: St) {
    s.writer == Look(Armed) || s.writer == Asleep || (s.writer.Look2? && s.writer.place == Armed)
  }

  /** No wake-up that data queued would bring is lost: a waiting writer that has not been woken since
      the tail moved, or that has gone to sleep, leaves more than half the ring free with data queued
      only while the work function is on its way to the wake-up test. */
  predicate WakeOk(s: St)
    requires |s.buf| > 0
  {
    && (Waiting(s) && !s.woken && (s.moved || s.writer == Asleep) && s.head != s.tail && MuchFree(s) ==> s.worker == Check)
    && (s.writer.Look2? && s.writer.place == Armed && !s.moved ==> s.writer.above == (s.head >= s.tail))
  }

  predicate Inv(s: St) {
    Shape(s) && WriterOk(s) && WorkerOk(s) && Fifo(s) && NoStall(s) && WakeOk(s)
  }

  lemma GapIs(s: St)
    requires Shape(s)
    ensures Gap(|s.buf|, s.tail, s.head) == if s.head <= s.tail then s.tail - s.head else |s.buf| + s.tail - s.head
  {
    var p := |s.buf|;
    if s.head <= s.tail {
      DivModUnique(p + s.tail - s.head, p, 1, s.tail - s.head);
    } else {
      DivModUnique(p + s.tail - s.head, p, 0, p + s.tail - s.head);
    }
  }

  lemma InitOk(buf: seq<int>)
    requires buf != []
    ensures Inv(Init(buf))
  {
    assert Contents(buf, 0, 0) == [];
  }

  /** The space computed, whatever happened between the two reads, fits. */
  lemma SpaceFits(s: St, above: bool)
    requires Shape(s) && (above ==> s.tail <= s.head) && Space(s, above) > 0
    ensures s.head + Space(s, above) <= |s.buf| && Count(|s.buf|, s.tail, s.head) + Space(s, above) < |s.buf|
  {
  }

  /** Undisturbed, it is all of it: up to the end of the buffer, or up to the one place that stays free. */
  lemma SpaceExact(s: St)
    requires Shape(s)
    ensures var n := Space(s, s.head >= s.tail);
            && 0 <= n && s.head + n <= |s.buf| && Count(|s.buf|, s.tail, s.head) + n < |s.buf|
            && (s.head + n == |s.buf| || Count(|s.buf|, s.tail, s.head) + n == |s.buf| - 1)
  {
  }

  /** A writer that goes to sleep with the tail not moved since prepare_to_wait has seen a full ring. */
  lemma SleepsFull(s: St, above: bool)
    requires Shape(s) && above == (s.head >= s.tail) && Space(s, above) <= 0
    ensures !MuchFree(s)
  {
    GapIs(s);
  }

  /** Only the writer's position changes. */
  lemma MovesKeeps(s: St, w: WriterAt)
    requires Inv(s) && s.writer != Activate && WriterOk(s.(writer := w)) && WakeOk(s.(writer := w))
    ensures Inv(s.(writer := w))
  {
    hide Contents, Gap, Flat, WriterOk, WakeOk;
    var s' := s.(writer := w);
    assert Unsent(s') == Unsent(s) && Taken(s') == Taken(s);
  }

  lemma LookedKeeps(s: St, signal: bool)
    requires Inv(s) && s.writer.Look2?
    ensures Inv(Looked(s, s.writer.place, Space(s, s.writer.above), signal))
  {
    hide Contents, Gap, Inv, Count, Space, Ended;
    if Space(s, s.writer.above) > 0 {
      FindsSpace(s, signal);
    } else if s.writer.place == Armed {
      if signal {
        EndedKeeps(s);
      } else {
        FallsAsleep(s);
      }
    } else {
      LooksOn(s, if s.writer.place == First then Look(Early) else Prepare);
    }
  }

  lemma FindsSpace(s: St, signal: bool)
    requires Inv(s) && s.writer.Look2? && Space(s, s.writer.above) > 0
    ensures Inv(Looked(s, s.writer.place, Space(s, s.writer.above), signal))
  {
    hide Contents, Gap, Fifo, NoStall, WorkerOk, Count;
    SpaceFits(s, s.writer.above);
    MovesKeeps(s, Looked(s, s.writer.place, Space(s, s.writer.above), signal).writer);
  }

  lemma FallsAsleep(s: St)
    requires Inv(s) && s.writer.Look2? && s.writer.place == Armed && Space(s, s.writer.above) <= 0
    ensures Inv(s.(writer := Asleep))
  {
    hide Contents, Gap, Fifo, NoStall, WorkerOk, Count;
    if !s.moved {
      SleepsFull(s, s.writer.above);
    }
    MovesKeeps(s, Asleep);
  }

  lemma LooksOn(s: St, w: WriterAt)
    requires Inv(s) && s.writer.Look2? && (w == Look(Early) || w == Prepare)
    ensures Inv(s.(writer := w))
  {
    hide Contents, Gap, Fifo, NoStall, WorkerOk, Count;
    MovesKeeps(s, w);
  }

  lemma EndedKeeps(s: St)
    requires Inv(s) && s.writer != Activate
    ensures Inv(Ended(s))
  {
    hide Contents, Gap;
    var s' := Ended(s);
    assert s'.chunks[..|s'.chunks| - 1] == s.chunks;
    assert Taken(s') == Taken(s);
    assert s.worker == SetIdle ==> s.head == s.tail;
  }

  /** The bytes copied are not yet in the ring. */
  lemma CopyKeeps(s: St, bytes: seq<int>)
    requires Inv(s) && s.writer.Copy? && |bytes| <= s.writer.space
    ensures s.head + |bytes| <= |s.buf|
    ensures var s' := s.(buf := Stored(s.buf, s.head, bytes));
            && Inv(s') && s'.buf[s.head..s.head + |bytes|] == bytes
  {
    hide Gap, Flat;
    StoreKeeps(s.buf, s.tail, s.head, bytes);
    StoredAt(s.buf, s.head, bytes);
    var s' := s.(buf := Stored(s.buf, s.head, bytes));
    assert Unsent(s') == Unsent(s) && Taken(s') == Taken(s);
  }

  lemma PublishKeeps(s: St)
    requires Inv(s) && s.writer.Publish?
    ensures WriterStep(s, false).Some? && Inv(WriterStep(s, false).value)
  {
    hide Gap, Contents, Count, Flat, Fifo, MuchFree;
    PublishFifo(s);
    PublishCounts(s);
  }

  lemma PublishFifo(s: St)
    requires Shape(s) && WriterOk(s) && WorkerOk(s) && Fifo(s) && s.writer.Publish?
    ensures var s' := WriterStep(s, false); s'.Some? && Shape(s'.value) && WorkerOk(s'.value) && Fifo(s'.value)
  {
    hide Gap, Contents, Count, Flat, Unsent, Taken;
    var s' := WriterStep(s, false).value;
    var bytes := s.data[s.written..s.written + s.writer.space];
    PublishCounts(s);
    PublishUnsent(s);
    PublishTaken(s);
    assert s.out + (Unsent(s) + bytes) == s.out + Unsent(s) + bytes;
  }

  lemma PublishUnsent(s: St)
    requires Shape(s) && WriterOk(s) && WorkerOk(s) && s.writer.Publish?
    ensures var s' := WriterStep(s, false); s'.Some? && Shape(s'.value) && WorkerOk(s'.value)
    ensures Unsent(WriterStep(s, false).value) == Unsent(s) + s.data[s.written..s.written + s.writer.space]
  {
    hide Gap, Contents, Count, Flat;
    var space := s.writer.space;
    PublishAppends(s.buf, s.tail, s.head, space);
    PublishCounts(s);
    DropAppend(Contents(s.buf, s.tail, s.head), s.data[s.written..s.written + space], if s.worker == Advance then 1 else 0);
  }

  lemma PublishTaken(s: St)
    requires Shape(s) && WriterOk(s) && s.writer.Publish?
    ensures var s' := WriterStep(s, false); s'.Some? && Shape(s'.value)
    ensures Taken(WriterStep(s, false).value) == Taken(s) + s.data[s.written..s.written + s.writer.space]
  {
    hide Gap, Contents, Count, Flat;
    var space := s.writer.space;
    assert s.data[..s.written + space] == s.data[..s.written] + s.data[s.written..s.written + space];
  }

  lemma DropAppend(c: seq<int>, bytes: seq<int>, k: nat)
    requires k <= |c|
    ensures (c + bytes)[k..] == c[k..] + bytes
  {
  }

  lemma PublishCounts(s: St)
    requires Shape(s) && s.writer.Publish? && Fits(s, s.writer.space)
    ensures Forward(|s.buf|, s.head, s.writer.space) != s.tail
  {
  }

  lemma WriterKeeps(s: St, signal: bool)
    requires Inv(s) && WriterStep(s, signal).Some?
    ensures Inv(WriterStep(s, signal).value)
  {
    hide Contents, Gap, Count, Flat, Inv, Stored, Forward, Space, LockFree;
    match s.writer
    case Away =>
    case Loop => LoopKeeps(s);
    case Look(place) => LookKeeps(s, place);
    case Look2(place, above) => LookedKeeps(s, signal);
    case Prepare => PrepareKeeps(s);
    case Asleep => WokenKeeps(s);
    case Copy(space) => CopiedKeeps(s);
    case Publish(space) => PublishKeeps(s);
    case Activate => ActivateKeeps(s);
  }

  lemma LoopKeeps(s: St)
    requires Inv(s) && s.writer == Loop
    ensures Inv(if s.written < |s.data| then s.(writer := Look(First)) else Ended(s))
  {
    hide Contents, Gap, Count, Flat, Fifo, NoStall, Ended;
    if s.written < |s.data| {
      MovesKeeps(s, Look(First));
    } else {
      EndedKeeps(s);
    }
  }

  lemma LookKeeps(s: St, place: Place)
    requires Inv(s) && s.writer == Look(place)
    ensures Inv(s.(writer := Look2(place, s.head >= s.tail)))
  {
    hide Contents, Gap, Count, Flat, Fifo, NoStall;
    MovesKeeps(s, Look2(place, s.head >= s.tail));
  }

  lemma WokenKeeps(s: St)
    requires Inv(s) && s.writer == Asleep
    ensures Inv(s.(writer := Prepare))
  {
    hide Contents, Gap, Count, Flat, Fifo, NoStall;
    MovesKeeps(s, Prepare);
  }

  lemma PrepareKeeps(s: St)
    requires Inv(s) && s.writer == Prepare
    ensures Inv(WriterStep(s, false).value)
  {
    hide Contents, Gap, Count, Flat;
    var s' := WriterStep(s, false).value;
    assert Unsent(s') == Unsent(s) && Taken(s') == Taken(s);
  }

  lemma CopiedKeeps(s: St)
    requires Inv(s) && s.writer.Copy?
    ensures WriterStep(s, false).Some? && Inv(WriterStep(s, false).value)
  {
    hide Contents, Gap, Count, Flat, Stored, NoStall, WakeOk, WorkerOk, Fifo;
    var space := s.writer.space;
    var bytes := s.data[s.written..s.written + space];
    CopyKeeps(s, bytes);
    var s' := s.(buf := Stored(s.buf, s.head, bytes));
    NoWake(s', Publish(space));
    MovesKeeps(s', Publish(space));
  }

  lemma NoWake(s: St, w: WriterAt)
    requires |s.buf| > 0 && w.Publish?
    ensures WakeOk(s.(writer := w))
  {
  }

  lemma ActivateKeeps(s: St)
    requires Inv(s) && s.writer == Activate && LockFree(s)
    ensures Inv(WriterStep(s, false).value)
  {
    hide Contents, Gap, Count, Flat;
    var s' := WriterStep(s, false).value;
    assert Unsent(s') == Unsent(s) && Taken(s') == Taken(s);
  }

  lemma StrobeKeeps(s: St)
    requires Inv(s) && s.worker == Strobe
    ensures Inv(WorkerStep(s).value)
  {
    hide Gap, Count, Flat, Fifo, Contents;
    StrobeFifo(s);
  }

  lemma StrobeFifo(s: St)
    requires Shape(s) && WorkerOk(s) && Fifo(s) && s.worker == Strobe
    ensures var s' := WorkerStep(s); s'.Some? && Shape(s'.value) && WorkerOk(s'.value) && Fifo(s'.value)
  {
    hide Gap, Count, Flat, Contents;
    var s' := WorkerStep(s).value;
    FirstByte(s);
    assert Taken(s') == Taken(s);
    assert s.out + Unsent(s) == s'.out + Unsent(s');
  }

  lemma FirstByte(s: St)
    requires Shape(s) && s.head != s.tail
    ensures var c := Contents(s.buf, s.tail, s.head); c != [] && c == [s.buf[s.tail]] + c[1..]
  {
  }

  /** Moving the tail: a writer that waits now has the tail moved, and the wake-up test comes next. */
  lemma AdvanceKeeps(s: St)
    requires Inv(s) && s.worker == Advance
    ensures Inv(WorkerStep(s).value)
  {
    hide Gap, Flat, Contents, Count, Fifo, WriterOk, MuchFree;
    AdvanceFifo(s);
    AdvanceCounts(s);
    AdvanceWriter(s);
  }

  lemma AdvanceFifo(s: St)
    requires Shape(s) && WorkerOk(s) && Fifo(s) && s.worker == Advance
    ensures var s' := WorkerStep(s); s'.Some? && Shape(s'.value) && WorkerOk(s'.value) && Fifo(s'.value)
  {
    hide Gap, Flat, Contents;
    var s' := WorkerStep(s).value;
    TakeDrops(s.buf, s.tail, s.head, 1);
    assert Unsent(s') == Unsent(s) && Taken(s') == Taken(s);
  }

  lemma AdvanceWriter(s: St)
    requires Shape(s) && s.worker == Advance && WriterOk(s.(tail := Forward(|s.buf|, s.tail, 1)))
    ensures WriterOk(WorkerStep(s).value)
  {
    hide Count, Forward;
  }

  lemma AdvanceCounts(s: St)
    requires Shape(s) && WriterOk(s) && s.head != s.tail
    ensures WriterOk(s.(tail := Forward(|s.buf|, s.tail, 1)))
  {
  }

  /** A step of the work function that neither sends nor moves the tail. */
  lemma WorkerKeeps(s: St)
    requires Inv(s) && WorkerStep(s).Some?
    ensures Inv(WorkerStep(s).value)
  {
    if s.worker == Strobe {
      StrobeKeeps(s);
    } else if s.worker == Advance {
      AdvanceKeeps(s);
    } else {
      OtherWorkKeeps(s);
    }
  }

  /** Steps that touch neither the bytes nor the writer. */
  lemma SameBytes(s: St, s': St)
    requires Inv(s) && WorkerOk(s') && (s.worker == Advance <==> s'.worker == Advance)
    requires s' == s.(worker := s'.worker, active := s'.active, timer := s'.timer, queued := s'.queued,
                      timeout := s'.timeout, irq := s'.irq, woken := s'.woken)
    ensures Shape(s') && WriterOk(s') && Fifo(s')
  {
    hide Contents, Gap, Count, Flat;
    assert Unsent(s') == Unsent(s) && Taken(s') == Taken(s);
  }

  lemma SameWake(s: St, s': St)
    requires |s.buf| > 0 && WakeOk(s) && s'.buf == s.buf && s'.head == s.head && s'.tail == s.tail && s'.writer == s.writer
    requires s'.worker == s.worker && s'.woken == s.woken && s'.moved == s.moved
    ensures WakeOk(s')
  {
    hide Gap;
  }

  lemma OtherWorkKeeps(s: St)
    requires Inv(s) && WorkerStep(s).Some? && s.worker != Strobe && s.worker != Advance
    ensures Inv(WorkerStep(s).value)
  {
    hide WriterOk, Fifo, Gap;
    SameBytes(s, WorkerStep(s).value);
  }

  lemma IrqKeeps(s: St)
    requires Inv(s)
    ensures Inv(Next(s, Irq).value)
  {
    hide WriterOk, Fifo, Gap;
    SameBytes(s, Next(s, Irq).value);
  }

  lemma ExpireKeeps(s: St)
    requires Inv(s) && Next(s, Expire).Some?
    ensures Inv(Next(s, Expire).value)
  {
    hide WriterOk, Fifo, Gap;
    SameBytes(s, Next(s, Expire).value);
  }

  /** What the timer function changes. */
  lemma TimeoutFrame(s: St, busy: bool)
    requires TimeoutStep(s, busy).Some?
    ensures var s' := TimeoutStep(s, busy).value; s' == s.(timer := s'.timer, timeout := s'.timeout, queued := s'.queued)
  {
    hide LockFree;
    match s.timeout
    case SeeActive =>
    case SeeStatus =>
    case Call =>
    case Queue =>
  }

  lemma TimeoutGoesOn(s: St, busy: bool)
    requires NoStall(s) && TimeoutStep(s, busy).Some?
    ensures NoStall(TimeoutStep(s, busy).value)
  {
    hide LockFree;
  }

  lemma TimeoutKeeps(s: St, busy: bool)
    requires Inv(s) && TimeoutStep(s, busy).Some?
    ensures Inv(TimeoutStep(s, busy).value)
  {
    hide WriterOk, Fifo, Gap, WakeOk, TimeoutStep, NoStall;
    TimeoutFrame(s, busy);
    TimeoutGoesOn(s, busy);
    SameWake(s, TimeoutStep(s, busy).value);
    SameBytes(s, TimeoutStep(s, busy).value);
  }

  lemma BeginKeeps(s: St, data: seq<int>)
    requires Inv(s) && s.writer == Away
    ensures Inv(Next(s, Begin(data)).value)
  {
    hide Contents, Gap, Count, Flat;
    var s' := Next(s, Begin(data)).value;
    assert Unsent(s') == Unsent(s) && Taken(s') == Taken(s);
  }

  /** Every step keeps the invariant. */
  lemma NextKeeps(s: St, l: Label)
    requires Inv(s) && Next(s, l).Some?
    ensures Inv(Next(s, l).value)
  {
    hide Inv, WriterStep, WorkerStep, TimeoutStep;
    match l
    case Begin(data) => BeginKeeps(s, data);
    case Writer(signal) => WriterKeeps(s, signal);
    case Fault(garbage) => CopyKeeps(s, garbage); EndedKeeps(s.(buf := Stored(s.buf, s.head, garbage)));
    case Worker => WorkerKeeps(s);
    case Irq => IrqKeeps(s);
    case Expire => ExpireKeeps(s);
    case Timeout(busy) => TimeoutKeeps(s, busy);
  }

  // ---------------------------------------------------------------- runs

  /** These steps lead from s to s'. */
  predicate Steps(s: St, ls: seq<Label>, s': St)
    decreases |ls|
  {
    if ls == [] then s' == s
    else Next(s, ls[0]).Some? && Steps(Next(s, ls[0]).value, ls[1..], s')
  }

  lemma {:induction false} StepsKeep(s: St, ls: seq<Label>, s': St)
    requires Inv(s) && Steps(s, ls, s')
    ensures Inv(s')
    decreases |ls|
  {
    hide Inv, Next;
    if ls != [] {
      NextKeeps(s, ls[0]);
      StepsKeep(Next(s, ls[0]).value, ls[1..], s');
    }
  }

  /** In every state of every run: bytes leave in the order in which they were accepted, each call's
      together; queued data has output active or about to be, and active output something that will go
      on with it; and a writer asleep and not woken has at most half the ring free, or nothing is
      queued any more, or the wake-up test is about to be made. */
  lemma RunOk(buf: seq<int>, ls: seq<Label>, s: St)
    requires buf != [] && Steps(Init(buf), ls, s)
    ensures Shape(s) && WorkerOk(s)
    ensures s.out + Unsent(s) == Flat(s.chunks) + s.data[..s.written]
    ensures s.head != s.tail ==> s.active || s.writer == Activate
    ensures s.active ==> s.timer || s.timeout != Quiet || s.queued || s.worker == Begun || s.worker == Locked ||
                         s.worker == SetIdle || s.worker == Strobe
    ensures s.writer == Asleep && !s.woken && s.head != s.tail && |s.buf| - |Contents(s.buf, s.tail, s.head)| > |s.buf| / 2 ==>
              s.worker == Check
  {
    hide Steps, Init, Next, Gap;
    InitOk(buf);
    StepsKeep(Init(buf), ls, s);
    GapIs(s);
  }

  /** No signal, no failing copy. */
  predicate Quietly(ls: seq<Label>) {
    forall l :: l in ls ==> l != Writer(true) && !l.Fault?
  }

  /** What the calls were given, call after call. */
  function Given(ls: seq<Label>): seq<seq<int>> {
    if ls == [] then [] else (if ls[0].Begin? then [ls[0].data] else []) + Given(ls[1..])
  }

  function Current(s: St): seq<seq<int>> {
    if s.writer == Away then [] else [s.data]
  }

  lemma QuietStep(s: St, l: Label)
    requires s.written <= |s.data| && Next(s, l).Some? && Quietly([l])
    ensures var s' := Next(s, l).value; s'.chunks + Current(s') == s.chunks + Current(s) + Given([l])
  {
    hide WorkerStep, TimeoutStep, WriterStep, Current;
    assert l in [l];
    match l
    case Begin(data) => BeginCurrent(s, data);
    case Writer(signal) => WriterCurrent(s);
    case Worker => WorkerFrame(s);
    case Irq => SameCurrent(s, Next(s, l).value);
    case Expire => SameCurrent(s, Next(s, l).value);
    case Timeout(busy) => TimeoutFrame(s, busy); SameCurrent(s, Next(s, l).value);
  }

  lemma SameCurrent(s: St, s': St)
    requires s'.chunks == s.chunks && s'.writer == s.writer && s'.data == s.data
    ensures s'.chunks + Current(s') == s.chunks + Current(s) + []
  {
  }

  lemma BeginCurrent(s: St, data: seq<int>)
    requires s.writer == Away
    ensures var s' := s.(writer := Loop, data := data, written := 0);
            Current(s) == [] && s'.chunks + Current(s') == s.chunks + Current(s) + ([data] + [])
  {
  }

  /** The call under way goes on, or is over with all of its data. */
  lemma WriterCurrent(s: St)
    requires s.written <= |s.data| && WriterStep(s, false).Some?
    ensures var s' := WriterStep(s, false).value; s'.chunks + Current(s') == s.chunks + Current(s) + []
  {
    hide LockFree, Forward, Stored, Space;
    if s.writer == Loop && s.written >= |s.data| {
      assert s.data[..|s.data|] == s.data;
    } else {
      WriterGoesOn(s);
    }
  }

  lemma WriterGoesOn(s: St)
    requires WriterStep(s, false).Some? && (s.writer == Loop ==> s.written < |s.data|)
    ensures var s' := WriterStep(s, false).value;
            s'.chunks == s.chunks && s'.data == s.data && s.writer != Away && s'.writer != Away
  {
    hide LockFree, Forward, Stored, Space;
    match s.writer
    case Away =>
    case Loop =>
    case Look(place) =>
    case Look2(place, above) => LookedGoesOn(s, place, Space(s, above));
    case Prepare =>
    case Asleep =>
    case Copy(space) =>
    case Publish(space) =>
    case Activate =>
  }

  lemma LookedGoesOn(s: St, place: Place, space: int)
    ensures var s' := Looked(s, place, space, false); s' == s.(writer := s'.writer) && s'.writer != Away
  {
    hide Ended;
    match place
    case First =>
    case Early =>
    case Armed =>
  }

  lemma WorkerFrame(s: St)
    requires WorkerStep(s).Some?
    ensures var s' := WorkerStep(s).value; s'.chunks + Current(s') == s.chunks + Current(s) + []
  {
    hide MuchFree, Forward, Current;
    match s.worker
    case Rest => SameCurrent(s, WorkerStep(s).value);
    case Begun => SameCurrent(s, WorkerStep(s).value);
    case Locked => SameCurrent(s, WorkerStep(s).value);
    case SetIdle => SameCurrent(s, WorkerStep(s).value);
    case StopTimer => SameCurrent(s, WorkerStep(s).value);
    case Strobe => SameCurrent(s, WorkerStep(s).value);
    case Advance => SameCurrent(s, WorkerStep(s).value);
    case Check => SameCurrent(s, WorkerStep(s).value);
    case Finish => SameCurrent(s, WorkerStep(s).value);
  }

  lemma {:induction false} QuietSteps(s: St, ls: seq<Label>, s': St)
    requires Inv(s) && Steps(s, ls, s') && Quietly(ls)
    ensures s'.chunks + Current(s') == s.chunks + Current(s) + Given(ls)
    decreases |ls|
  {
    hide Inv, Next, Shape, Current;
    if ls != [] {
      var s1 := Next(s, ls[0]).value;
      InvWritten(s);
      assert ls[0] in ls;
      QuietStep(s, ls[0]);
      NextKeeps(s, ls[0]);
      QuietSteps(s1, ls[1..], s');
      Regroup(s.chunks + Current(s), Given([ls[0]]), Given(ls[1..]));
    }
  }

  lemma Regroup<T>(a: seq<T>, b: seq<T>, c: seq<T>)
    ensures a + b + c == a + (b + c)
  {
  }

  lemma InvWritten(s: St)
    requires Inv(s)
    ensures s.written <= |s.data|
  {
    hide WriterOk, WorkerOk, Fifo, NoStall, WakeOk;
  }

  /** Without signals and failing copies nothing of any call is left out, doubled or mixed with another's: what
      the printer has been sent, the ring holds and the call under way still has to store is, in order,
      all that the calls were given. */
  lemma AllPrinted(buf: seq<int>, ls: seq<Label>, s: St)
    requires buf != [] && Steps(Init(buf), ls, s) && Quietly(ls)
    ensures Shape(s) && WorkerOk(s) && s.out + Unsent(s) + s.data[s.written..] == Flat(Given(ls))
  {
    hide Steps, Next, Gap, Contents, Given;
    InitOk(buf);
    StepsKeep(Init(buf), ls, s);
    QuietSteps(Init(buf), ls, s);
    assert Given(ls) == s.chunks + Current(s);
    if s.writer == Away {
      assert s.chunks + [] == s.chunks;
    } else {
      assert (s.chunks + [s.data])[..|s.chunks|] == s.chunks;
    }
    assert s.data[..s.written] + s.data[s.written..] == s.data;
    assert Flat(s.chunks) + s.data[..s.written] + s.data[s.written..] == Flat(s.chunks) + (s.data[..s.written] + s.data[s.written..]);
  }

  /** What brings the output on, if it is anyone's turn but the writer's: the work function, and if its work is
      not even queued the timer, with the printer not busy any more. */
  function Helps(s: St): Label {
    if s.worker != Rest || s.queued then Worker else if s.timeout == Quiet then Expire else Timeout(false)
  }

  function Distance(s: St): nat {
    match s.worker
    case Check => 12
    case Finish => 11
    case Rest =>
      if s.queued then 5
      else (match s.timeout
            case Quiet => 10
            case SeeActive => 9
            case SeeStatus => 8
            case Call => 7
            case Queue => 6)
    case Begun => 4
    case Locked => 3
    case Strobe => 2
    case Advance => 1
    case _ => 0
  }

  lemma HelpComes(s: St)
    requires Inv(s) && s.writer != Activate && s.head != s.tail
    ensures Helps(s) == Worker || Helps(s) == Expire || Helps(s) == Timeout(false)
    ensures Next(s, Helps(s)).Some? && Closer(s, Next(s, Helps(s)).value)
  {
    hide WriterOk, Fifo, WakeOk, WorkerStep, TimeoutStep, Closer;
    if s.worker != Rest || s.queued {
      WorkComes(s);
    } else if s.timeout == Quiet {
      ExpiryComes(s);
    } else {
      TimeoutComes(s);
    }
  }

  /** One byte less in the ring, or nearer to it, and the writer's part untouched. */
  predicate Closer(s: St, s': St)
    requires Shape(s)
  {
    && s'.writer == s.writer && s'.data == s.data && s'.written == s.written && s'.chunks == s.chunks && s'.head == s.head
    && |s'.buf| == |s.buf|
    && if s.worker == Advance then s'.tail == Forward(|s.buf|, s.tail, 1) else s'.tail == s.tail && Distance(s') < Distance(s)
  }

  lemma WorkComes(s: St)
    requires Shape(s) && WorkerOk(s) && NoStall(s) && s.writer != Activate && s.head != s.tail && (s.worker != Rest || s.queued)
    ensures WorkerStep(s).Some? && Closer(s, WorkerStep(s).value)
  {
    hide MuchFree, Forward;
    match s.worker
    case Rest =>
    case Begun =>
    case Locked =>
    case SetIdle =>
    case StopTimer =>
    case Strobe =>
    case Advance =>
    case Check =>
    case Finish =>
  }

  lemma ExpiryComes(s: St)
    requires Shape(s) && NoStall(s) && s.writer != Activate && s.head != s.tail
    requires s.worker == Rest && !s.queued && s.timeout == Quiet
    ensures s.timer && Closer(s, s.(timer := false, timeout := SeeActive))
  {
  }

  lemma TimeoutComes(s: St)
    requires Shape(s) && NoStall(s) && s.writer != Activate && s.head != s.tail
    requires s.worker == Rest && !s.queued && s.timeout != Quiet
    ensures TimeoutStep(s, false).Some? && Closer(s, TimeoutStep(s, false).value)
  {
    match s.timeout
    case Quiet =>
    case SeeActive =>
    case SeeStatus =>
    case Call =>
    case Queue =>
  }

  lemma OneLess(s: St)
    requires Shape(s) && s.head != s.tail
    ensures Count(|s.buf|, Forward(|s.buf|, s.tail, 1), s.head) < Count(|s.buf|, s.tail, s.head)
  {
  }

  lemma InvFifo(s: St)
    requires Inv(s)
    ensures Shape(s) && WorkerOk(s) && s.out + Unsent(s) == Flat(s.chunks) + s.data[..s.written]
  {
    hide WriterOk, NoStall, WakeOk;
  }

  lemma NothingUnsent(s: St)
    requires Shape(s) && WorkerOk(s) && s.head == s.tail
    ensures s.out == s.out + Unsent(s)
  {
  }

  /** No byte is stuck: from every state in which output has been made active for the bytes in the ring the
      work function, the timer and a printer that gets ready, without the writer and even without an
      interrupt, can bring all of them out, in order. */
  lemma {:induction false} Drains(s: St) returns (ls: seq<Label>, s': St)
    requires Inv(s) && s.writer != Activate
    ensures Steps(s, ls, s') && Inv(s') && s'.head == s'.tail && s'.out == s.out + Unsent(s)
    ensures forall l :: l in ls ==> l == Worker || l == Expire || l == Timeout(false)
    ensures s'.writer == s.writer && s'.data == s.data && s'.written == s.written && s'.chunks == s.chunks
    decreases if Shape(s) then Count(|s.buf|, s.tail, s.head) else 0, Distance(s)
  {
    hide Inv, Next, Contents, Count, Distance, Forward, Helps, Unsent, WorkerOk;
    InvFifo(s);
    if s.head == s.tail {
      ls, s' := [], s;
      NothingUnsent(s);
    } else {
      HelpComes(s);
      NextKeeps(s, Helps(s));
      var s1 := Next(s, Helps(s)).value;
      if s.worker == Advance {
        OneLess(s);
      }
      var rest;
      rest, s' := Drains(s1);
      ls := [Helps(s)] + rest;
      InvFifo(s1);
    }
  }

  /** So once the calls have returned, after any run without signals and failing copies, the printer can still
      get everything that they were given. */
  lemma EverythingComesOut(buf: seq<int>, ls: seq<Label>, s: St) returns (more: seq<Label>, s': St)
    requires buf != [] && Steps(Init(buf), ls, s) && Quietly(ls) && s.writer == Away
    ensures Steps(s, more, s') && s'.out == Flat(Given(ls))
    ensures forall l :: l in more ==> l == Worker || l == Expire || l == Timeout(false)
  {
    hide Steps, Next, Gap, Contents, Given, Flat, Unsent;
    InitOk(buf);
    StepsKeep(Init(buf), ls, s);
    AllPrinted(buf, ls, s);
    more, s' := Drains(s);
    assert s.data[s.written..] == [];
  }

  /** A signal ends the wait: undisturbed, the writer leaves it in four steps, and returns unless there is
      space after all. */
  lemma SignalEnds(s: St)
    requires Inv(s) && s.writer == Asleep
    ensures exists s' :: Steps(s, [Writer(true), Writer(true), Writer(true), Writer(true)], s') && (s'.writer == Away || s'.writer.Copy?)
  {
    hide Inv, Steps;
    var w := Writer(true);
    var s1 := s.(writer := Prepare);
    var s2 := s.(writer := Look(Armed), woken := false, moved := false);
    var s3 := s2.(writer := Look2(Armed, s.head >= s.tail));
    var s4 := Looked(s3, Armed, Space(s3, s.head >= s.tail), true);
    FourSteps(s, w, s1, s2, s3, s4);
  }

  lemma FourSteps(s: St, w: Label, s1: St, s2: St, s3: St, s4: St)
    requires Next(s, w) == Some(s1) && Next(s1, w) == Some(s2) && Next(s2, w) == Some(s3) && Next(s3, w) == Some(s4)
    ensures Steps(s, [w, w, w, w], s4)
  {
    hide Next;
    assert [w][1..] == [] && [w, w][1..] == [w] && [w, w, w][1..] == [w, w] && [w, w, w, w][1..] == [w, w, w];
    assert Steps(s4, [], s4);
    assert Steps(s3, [w], s4);
    assert Steps(s2, [w, w], s4);
    assert Steps(s1, [w, w, w], s4);
  }

  /** A call that nobody disturbs, with data that fits into an empty ring, puts all of it there at once. */
  lemma WholeWrite(buf: seq<int>, data: seq<int>)
    requires 0 < |data| < |buf|
    ensures exists s :: Steps(Init(buf), [Begin(data), Writer(false), Writer(false), Writer(false), Writer(false), Writer(false)], s) &&
                        s.writer == Activate && s.written == |data| && Shape(s) && Contents(s.buf, s.tail, s.head) == data
  {
    var s1 := Init(buf).(writer := Loop, data := data);
    var s2 := s1.(writer := Look(First));
    var s3 := s1.(writer := Look2(First, true));
    var s4 := s1.(writer := Copy(|data|));
    var s5 := s1.(writer := Publish(|data|), buf := Stored(buf, 0, data));
    var s6 := s5.(writer := Activate, head := |data|, written := |data|);
    assert data[0..|data|] == data;
    StoredAt(buf, 0, data);
    FiveSteps(Init(buf), Begin(data), s1, s2, s3, s4, s5, s6);
    assert Contents(s6.buf, 0, |data|) == data;
  }

  lemma FiveSteps(s0: St, l: Label, s1: St, s2: St, s3: St, s4: St, s5: St, s6: St)
    requires Next(s0, l) == Some(s1) && Next(s1, Writer(false)) == Some(s2) && Next(s2, Writer(false)) == Some(s3)
    requires Next(s3, Writer(false)) == Some(s4) && Next(s4, Writer(false)) == Some(s5) && Next(s5, Writer(false)) == Some(s6)
    ensures Steps(s0, [l, Writer(false), Writer(false), Writer(false), Writer(false), Writer(false)], s6)
  {
    hide Next;
    var w := Writer(false);
    assert Steps(s6, [], s6);
    assert [w][1..] == [] && [w, w][1..] == [w] && [w, w, w][1..] == [w, w] && [w, w, w, w][1..] == [w, w, w];
    assert [w, w, w, w, w][1..] == [w, w, w, w] && [l, w, w, w, w, w][1..] == [w, w, w, w, w];
    assert Steps(s5, [w], s6);
    assert Steps(s4, [w, w], s6);
    assert Steps(s3, [w, w, w], s6);
    assert Steps(s2, [w, w, w, w], s6);
    assert Steps(s1, [w, w, w, w, w], s6);
  }
}
