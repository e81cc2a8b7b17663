/** The main thread and the log writer thread, one atomic step at a time. */
module AsyncLog {
  import opened Wrappers
  import opened LogFiles

  /** A cell of the lock-free stack; its identity stands for its address. */
  datatype Cell = Cell(id: nat, cmd: Cmd)

  datatype Owner = Nobody | Main | Writer

  /** What the main thread does once its command is queued. */
  datatype After = Return | AwaitFlush(before: int, destroy: bool) | AwaitExit

  datatype MainPc =
    | Idle
    | FlushRead(destroy: bool)
    | FlushAlloc(before: int, destroy: bool)
    | LoadHead(c: Cmd, k: After)
    | CasHead(c: Cmd, k: After, seen: seq<Cell>)
    | CountUp(k: After)
    | LoadHwm(k: After, depth: int)
    | CasHwm(k: After, depth: int, hwm: int)
    | WakeLock(k: After)
    | WakeSignal(k: After)
    | WakeUnlock(k: After)
    | FlushLock(before: int, destroy: bool)
    | FlushCheck(before: int, destroy: bool)
    | FlushSleep(before: int, destroy: bool)
    | FlushRelock(before: int, destroy: bool)
    | FlushRecheck(before: int, destroy: bool)
    | FlushUnlock(destroy: bool)
    | StopAlloc
    | Joining
    | Gone

  datatype WriterPc =
    | Lock
    | Check
    | Sleep
    | Relock
    | Unlock
    | Drain
    | CountDown(chain: seq<Cmd>, count: nat)
    | Work(chain: seq<Cmd>, stop: bool)
    | AckLock(chain: seq<Cmd>, stop: bool)
    | AckAdd(chain: seq<Cmd>, stop: bool)
    | AckWake(chain: seq<Cmd>, stop: bool)
    | AckUnlock(chain: seq<Cmd>, stop: bool)
    | Closing
    | Exited

  /** `sent` and `done` record the commands pushed and executed so far, `peak` the largest
      depth a completed push has computed; the rest is the program's state. */
  datatype State = State(
    stack: seq<Cell>, depth: int, hwm: int,
    wake: Owner, ack: Owner, flushSeq: int,
    slots: seq<Slot>,
    main: MainPc, writer: WriterPc,
    sent: seq<Cmd>, done: seq<Cmd>, peak: int)

  ghost function Init(n: nat): State {
    State([], 0, 0, Nobody, Nobody, 0, Blank(n), Idle, Lock, [], [], 0)
  }

  // ------------------------------------------------------------- steps

  /** A new call (`ok` tells whether there is memory for its command), a step inside a call (`ok` decides
      an allocation, or whether a weak compare-and-swap gets its chance), a step of the writer, or a
      wake-up without a signal. */
  datatype Act =
    | CallWrite(slot: int, path: Path, line: string, opens: bool, ok: bool)
    | CallClose(slot: int, ok: bool)
    | CallFlush
    | CallDestroy
    | MainStep(ok: bool)
    | WriterStep
    | MainSpurious
    | WriterSpurious

  /** Waiting for a lock somebody else holds, for a condition, for the other thread, or for a caller. */
  ghost predicate MainBlocked(s: State) {
    match s.main
    case Idle => true
    case WakeLock(_) => s.wake != Nobody
    case FlushLock(_, _) => s.ack != Nobody
    case FlushRelock(_, _) => s.ack != Nobody
    case FlushSleep(_, _) => true
    case Joining => !s.writer.Exited?
    case Gone => true
    case _ => false
  }

  ghost predicate WriterBlocked(s: State) {
    match s.writer
    case Lock => s.wake != Nobody
    case Relock => s.wake != Nobody
    case Sleep => true
    case AckLock(_, _) => s.ack != Nobody
    case Exited => true
    case _ => false
  }

  ghost predicate Enabled(s: State, a: Act) {
    match a
    case CallWrite(_, _, _, _, _) => s.main.Idle?
    case CallClose(_, _) => s.main.Idle?
    case CallFlush => s.main.Idle?
    case CallDestroy => s.main.Idle?
    case MainStep(_) => !MainBlocked(s)
    case WriterStep => !WriterBlocked(s)
    case MainSpurious => s.main.FlushSleep?
    case WriterSpurious => s.writer.Sleep?
  }

  /** The order of submission: the stack read from its bottom. */
  ghost function Oldest(st: seq<Cell>): (r: seq<Cmd>)
    ensures |r| == |st|
  {
    seq(|st|, i requires 0 <= i < |st| => st[|st| - 1 - i].cmd)
  }

  /** Both heads are null, or both are the same cell. */
  ghost predicate SameHead(a: seq<Cell>, b: seq<Cell>) {
    if a == [] || b == [] then a == [] && b == [] else a[0].id == b[0].id
  }

  ghost function Queued(k: After): MainPc {
    match k
    case Return => Idle
    case AwaitFlush(before, destroy) => FlushLock(before, destroy)
    case AwaitExit => Joining
  }

  ghost function AfterFlush(destroy: bool): MainPc {
    if destroy then StopAlloc else Idle
  }

  ghost function MainNext(s: State, ok: bool): State
    requires !MainBlocked(s)
  {
    match s.main
    case FlushRead(d) => s.(main := FlushAlloc(s.flushSeq, d))
    case FlushAlloc(b, d) => s.(main := if ok then LoadHead(Flush, AwaitFlush(b, d)) else AfterFlush(d))
    case LoadHead(c, k) => s.(main := CasHead(c, k, s.stack))
    case CasHead(c, k, seen) =>
      if ok && SameHead(seen, s.stack)
      then s.(main := CountUp(k), stack := [Cell(|s.sent|, c)] + seen, sent := s.sent + [c])
      else s.(main := CasHead(c, k, s.stack))
    case CountUp(k) => s.(main := LoadHwm(k, s.depth + 1), depth := s.depth + 1)
    case LoadHwm(k, d) => s.(main := CasHwm(k, d, s.hwm))
    case CasHwm(k, d, h) =>
      if d <= h then s.(main := WakeLock(k), peak := if d > s.peak then d else s.peak)
      else if ok && s.hwm == h
      then s.(main := WakeLock(k), hwm := d, peak := if d > s.peak then d else s.peak)
      else s.(main := CasHwm(k, d, s.hwm))
    case WakeLock(k) => s.(main := WakeSignal(k), wake := Main)
    case WakeSignal(k) => s.(main := WakeUnlock(k), writer := if s.writer.Sleep? then Relock else s.writer)
    case WakeUnlock(k) => s.(main := Queued(k), wake := Nobody)
    case FlushLock(b, d) => s.(main := FlushCheck(b, d), ack := Main)
    case FlushCheck(b, d) =>
      if s.flushSeq == b then s.(main := FlushSleep(b, d), ack := Nobody) else s.(main := FlushUnlock(d))
    case FlushRelock(b, d) => s.(main := FlushRecheck(b, d), ack := Main)
    case FlushRecheck(b, d) =>
      if s.flushSeq == b then s.(main := FlushSleep(b, d), ack := Nobody) else s.(main := FlushUnlock(d))
    case FlushUnlock(d) => s.(main := AfterFlush(d), ack := Nobody)
    case StopAlloc => s.(main := if ok then LoadHead(Stop, AwaitExit) else Joining)
    case Joining => s.(main := Gone)
  }

  ghost function WriterNext(s: State): State
    requires !WriterBlocked(s)
  {
    match s.writer
    case Lock => s.(writer := Check, wake := Writer)
    case Check => if s.stack == [] then s.(writer := Sleep, wake := Nobody) else s.(writer := Unlock)
    case Relock => s.(writer := Check, wake := Writer)
    case Unlock => s.(writer := Drain, wake := Nobody)
    case Drain => s.(writer := CountDown(Oldest(s.stack), |s.stack|), stack := [])
    case CountDown(chain, n) => s.(writer := Work(chain, false), depth := s.depth - n)
    case Work(chain, stop) =>
      if chain == [] then s.(writer := if stop then Closing else Lock)
      else
        var c, rest := chain[0], chain[1..];
        var s' := s.(slots := Exec(s.slots, c), done := s.done + [c]);
        if c.Flush? then s'.(writer := AckLock(rest, stop)) else s'.(writer := Work(rest, stop || c.Stop?))
    case AckLock(chain, stop) => s.(writer := AckAdd(chain, stop), ack := Writer)
    case AckAdd(chain, stop) => s.(writer := AckWake(chain, stop), flushSeq := s.flushSeq + 1)
    case AckWake(chain, stop) =>
      s.(writer := AckUnlock(chain, stop),
         main := if s.main.FlushSleep? then FlushRelock(s.main.before, s.main.destroy) else s.main)
    case AckUnlock(chain, stop) => s.(writer := Work(chain, stop), ack := Nobody)
    case Closing => s.(writer := Exited, slots := CloseAll(s.slots))
  }

  ghost function Next(s: State, a: Act): State
    requires Enabled(s, a)
  {
    match a
    case CallWrite(i, path, line, opens, ok) => if ok then s.(main := LoadHead(Write(i, path, line, opens), Return)) else s
    case CallClose(i, ok) => if ok then s.(main := LoadHead(Close(i), Return)) else s
    case CallFlush => s.(main := FlushRead(false))
    case CallDestroy => s.(main := FlushRead(true))
    case MainStep(ok) => MainNext(s, ok)
    case WriterStep => WriterNext(s)
    case MainSpurious => s.(main := FlushRelock(s.main.before, s.main.destroy))
    case WriterSpurious => s.(writer := Relock)
  }

  // ------------------------------------------------------------- the invariant

  ghost function Held(w: WriterPc): seq<Cmd> {
    match w
    case CountDown(chain, _) => chain
    case Work(chain, _) => chain
    case AckLock(chain, _) => chain
    case AckAdd(chain, _) => chain
    case AckWake(chain, _) => chain
    case AckUnlock(chain, _) => chain
    case _ => []
  }

  /** Nothing is lost, duplicated or reordered between push and execution. */
  ghost predicate Conserved(s: State) {
    s.sent == s.done + Held(s.writer) + Oldest(s.stack)
  }

  ghost predicate InOrder(s: State, n: nat) {
    s.slots == if s.writer.Exited? then CloseAll(Run(Blank(n), s.done)) else Run(Blank(n), s.done)
  }

  ghost function Uncounted(m: MainPc): int {
    if m.CountUp? then 1 else 0
  }

  ghost function Unsubtracted(w: WriterPc): int {
    if w.CountDown? then w.count else 0
  }

  ghost predicate DepthExact(s: State) {
    s.depth == |s.stack| - Uncounted(s.main) + Unsubtracted(s.writer)
  }

  ghost predicate HighWater(s: State) {
    s.hwm >= s.peak && (s.main.CasHwm? ==> s.main.hwm == s.hwm)
  }

  /** A mutex is held exactly by the thread whose position says so. */
  ghost predicate Locks(s: State) {
    && (s.wake == Main <==> s.main.WakeSignal? || s.main.WakeUnlock?)
    && (s.wake == Writer <==> s.writer.Check? || s.writer.Unlock?)
    && (s.ack == Main <==> s.main.FlushCheck? || s.main.FlushRecheck? || s.main.FlushUnlock?)
    && (s.ack == Writer <==> s.writer.AckAdd? || s.writer.AckWake? || s.writer.AckUnlock?)
  }

  /** Between the push and the signal. */
  ghost predicate SignalDue(m: MainPc) {
    m.CountUp? || m.LoadHwm? || m.CasHwm? || m.WakeLock? || m.WakeSignal?
  }

  /** A sleeping writer has nothing to do, unless its wake-up call is still on its way. */
  ghost predicate NoLostWakeup(s: State) {
    && (s.writer.Sleep? && s.stack != [] ==> SignalDue(s.main))
    && (s.main.FlushSleep? && s.flushSeq != s.main.before ==> s.writer.AckWake?)
    && (s.writer.Unlock? || s.writer.Drain? ==> s.stack != [])
  }

  ghost function Flushes(c: seq<Cmd>): nat {
    if c == [] then 0 else Flushes(c[..|c| - 1]) + if c[|c| - 1].Flush? then 1 else 0
  }

  ghost function LastIs(c: seq<Cmd>, x: Cmd): bool {
    c != [] && c[|c| - 1] == x
  }

  ghost function Goal(m: MainPc): After {
    match m
    case LoadHead(_, k) => k
    case CasHead(_, k, _) => k
    case CountUp(k) => k
    case LoadHwm(k, _) => k
    case CasHwm(k, _, _) => k
    case WakeLock(k) => k
    case WakeSignal(k) => k
    case WakeUnlock(k) => k
    case FlushLock(b, d) => AwaitFlush(b, d)
    case FlushCheck(b, d) => AwaitFlush(b, d)
    case FlushSleep(b, d) => AwaitFlush(b, d)
    case FlushRelock(b, d) => AwaitFlush(b, d)
    case FlushRecheck(b, d) => AwaitFlush(b, d)
    case _ => Return
  }

  ghost predicate Pushing(m: MainPc) {
    m.LoadHead? || m.CasHead?
  }

  /** The sequence number counts the flushes executed, up to one being acknowledged. */
  ghost predicate FlushDone(s: State) {
    Flushes(s.done) == s.flushSeq + (if s.writer.AckLock? || s.writer.AckAdd? then 1 else 0)
  }

  /** A flush of the main thread has been pushed and not been seen acknowledged yet. */
  ghost predicate Awaiting(m: MainPc) {
    Goal(m).AwaitFlush? && !Pushing(m)
  }

  /** Before it pushes its flush, the main thread has read the current number. */
  ghost predicate FlushStart(s: State) {
    && (s.main.FlushAlloc? ==> s.main.before == s.flushSeq)
    && (Pushing(s.main) && Goal(s.main).AwaitFlush? ==> Goal(s.main).before == s.flushSeq)
  }

  /** The main thread is ahead of the number by one exactly while it waits for its own flush. */
  ghost predicate FlushAhead(s: State) {
    && (Awaiting(s.main) ==> LastIs(s.sent, Flush) && Flushes(s.sent) == Goal(s.main).before + 1
                             && Goal(s.main).before <= s.flushSeq <= Goal(s.main).before + 1)
    && (!Awaiting(s.main) ==> Flushes(s.sent) == s.flushSeq)
    && (s.main.FlushUnlock? ==> LastIs(s.sent, Flush))
  }

  ghost predicate FlushCount(s: State) {
    FlushDone(s) && FlushStart(s) && FlushAhead(s)
  }

  /** The command being pushed fits what the main thread means to do next. */
  ghost predicate Purpose(s: State) {
    && (Pushing(s.main) ==>
          (s.main.c.Flush? <==> s.main.k.AwaitFlush?) && (s.main.c.Stop? <==> s.main.k.AwaitExit?))
    && (s.main.CasHead? ==> s.main.seen == s.stack || s.stack == [])
    && (forall i :: 0 <= i < |s.stack| ==> s.stack[i].id < |s.sent|)
  }

  ghost predicate Stopping(w: WriterPc) {
    match w
    case Work(_, stop) => stop
    case AckLock(_, stop) => stop
    case AckAdd(_, stop) => stop
    case AckWake(_, stop) => stop
    case AckUnlock(_, stop) => stop
    case Closing => true
    case Exited => true
    case _ => false
  }

  /** The stop sentinel is the last command ever sent, and the writer knows of it once executed. */
  ghost predicate StopLast(s: State) {
    && (Stop in s.sent ==> LastIs(s.sent, Stop) && (Goal(s.main).AwaitExit? || s.main.Joining? || s.main.Gone?) && !Pushing(s.main))
    && (Goal(s.main).AwaitExit? && !Pushing(s.main) ==> Stop in s.sent)
    && (forall i :: 0 <= i < |s.sent| - 1 ==> s.sent[i] != Stop)
    && (Stopping(s.writer) <==> Stop in s.done)
    && (s.main.Gone? ==> s.writer.Exited?)
  }

  ghost predicate Inv(s: State, n: nat) {
    && Conserved(s) && InOrder(s, n) && DepthExact(s) && HighWater(s)
    && Locks(s) && NoLostWakeup(s) && FlushCount(s) && Purpose(s) && StopLast(s)
  }

  // ------------------------------------------------------------- one step keeps it

  lemma OldestPush(x: Cell, st: seq<Cell>)
    ensures Oldest([x] + st) == Oldest(st) + [x.cmd]
  {
  }

  lemma FlushesSnoc(c: seq<Cmd>, x: Cmd)
    ensures Flushes(c + [x]) == Flushes(c) + if x.Flush? then 1 else 0
  {
    assert (c + [x])[..|c|] == c;
  }

  lemma {:induction false} FlushesConcat(a: seq<Cmd>, b: seq<Cmd>)
    ensures Flushes(a + b) == Flushes(a) + Flushes(b)
  {
    if b == [] {
      assert a + b == a;
    } else {
      assert (a + b)[..|a + b| - 1] == a + b[..|b| - 1];
      FlushesConcat(a, b[..|b| - 1]);
    }
  }

  /** A push that goes through found the stack as it was read, or emptied. */
  lemma PushSees(s: State)
    requires Purpose(s) && s.main.CasHead? && SameHead(s.main.seen, s.stack)
    ensures s.main.seen == s.stack
  {
  }

  lemma MainKeepsConserved(s: State, n: nat, ok: bool)
    requires Conserved(s) && InOrder(s, n) && Purpose(s) && !MainBlocked(s)
    ensures Conserved(MainNext(s, ok)) && InOrder(MainNext(s, ok), n)
  {
    var s' := MainNext(s, ok);
    assert s'.done == s.done && s'.slots == s.slots && Held(s'.writer) == Held(s.writer);
    if s.main.CasHead? && ok && SameHead(s.main.seen, s.stack) {
      PushSees(s);
      OldestPush(Cell(|s.sent|, s.main.c), s.stack);
    }
  }

  lemma MainKeepsCounts(s: State, ok: bool)
    requires DepthExact(s) && HighWater(s) && Purpose(s) && !MainBlocked(s)
    ensures DepthExact(MainNext(s, ok)) && HighWater(MainNext(s, ok))
    ensures MainNext(s, ok).hwm >= s.hwm
  {
    if s.main.CasHead? && ok && SameHead(s.main.seen, s.stack) {
      PushSees(s);
    }
  }

  lemma MainKeepsLocks(s: State, ok: bool)
    requires Locks(s) && !MainBlocked(s)
    ensures Locks(MainNext(s, ok))
  {
  }

  lemma MainKeepsWakeups(s: State, ok: bool)
    requires Locks(s) && NoLostWakeup(s) && !MainBlocked(s)
    ensures NoLostWakeup(MainNext(s, ok))
  {
  }

  lemma MainKeepsFlushStart(s: State, ok: bool)
    requires FlushStart(s) && !MainBlocked(s)
    ensures FlushStart(MainNext(s, ok))
  {
  }

  lemma PushKeepsFlushAhead(s: State, ok: bool)
    requires FlushAhead(s) && FlushStart(s) && Purpose(s) && s.main.CasHead?
    ensures FlushAhead(MainNext(s, ok))
  {
    FlushesSnoc(s.sent, s.main.c);
  }

  lemma MainKeepsFlushAhead(s: State, ok: bool)
    requires FlushAhead(s) && !MainBlocked(s) && !s.main.CasHead?
    ensures FlushAhead(MainNext(s, ok))
  {
    assert MainNext(s, ok).sent == s.sent && MainNext(s, ok).flushSeq == s.flushSeq;
  }

  lemma MainKeepsFlushCount(s: State, ok: bool)
    requires FlushCount(s) && Purpose(s) && !MainBlocked(s)
    ensures FlushCount(MainNext(s, ok))
  {
    MainKeepsFlushStart(s, ok);
    if s.main.CasHead? {
      PushKeepsFlushAhead(s, ok);
    } else {
      MainKeepsFlushAhead(s, ok);
    }
  }

  lemma MainKeepsPurpose(s: State, ok: bool)
    requires Purpose(s) && !MainBlocked(s)
    ensures Purpose(MainNext(s, ok))
  {
    if s.main.CasHead? && ok && SameHead(s.main.seen, s.stack) {
      PushSees(s);
    }
  }

  lemma MainKeepsStopLast(s: State, ok: bool)
    requires StopLast(s) && Purpose(s) && !MainBlocked(s) && (Stop in s.done ==> Stop in s.sent)
    ensures StopLast(MainNext(s, ok))
  {
    if s.main.CasHead? {
      PushStop(s.sent, s.main.c);
    }
  }

  lemma DoneWasSent(s: State)
    requires Conserved(s)
    ensures Stop in s.done ==> Stop in s.sent
  {
  }

  lemma PushStop(sent: seq<Cmd>, c: Cmd)
    ensures Stop in sent + [c] <==> c == Stop || Stop in sent
    ensures Stop !in sent ==> forall i :: 0 <= i < |sent + [c]| - 1 ==> (sent + [c])[i] != Stop
  {
  }

  lemma MainKeeps(s: State, n: nat, ok: bool)
    requires Inv(s, n) && !MainBlocked(s)
    ensures Inv(MainNext(s, ok), n) && MainNext(s, ok).hwm >= s.hwm
  {
    MainKeepsConserved(s, n, ok);
    MainKeepsCounts(s, ok);
    MainKeepsLocks(s, ok);
    MainKeepsWakeups(s, ok);
    MainKeepsFlushCount(s, ok);
    MainKeepsPurpose(s, ok);
    DoneWasSent(s);
    MainKeepsStopLast(s, ok);
  }

  lemma WriterKeepsConserved(s: State, n: nat)
    requires Conserved(s) && InOrder(s, n) && !WriterBlocked(s)
    ensures Conserved(WriterNext(s)) && InOrder(WriterNext(s), n)
  {
    if s.writer.Work? && s.writer.chain != [] {
      var c, rest := s.writer.chain[0], s.writer.chain[1..];
      RunSnoc(Blank(n), s.done, c);
      MoveOne(s.done, s.writer.chain, Oldest(s.stack));
    } else if s.writer.Drain? {
      assert s.done + Held(s.writer) + Oldest(s.stack) == s.done + Oldest(s.stack) + [];
    }
  }

  lemma MoveOne(done: seq<Cmd>, chain: seq<Cmd>, rest: seq<Cmd>)
    requires chain != []
    ensures done + chain + rest == done + [chain[0]] + chain[1..] + rest
  {
    assert chain == [chain[0]] + chain[1..];
  }

  lemma WriterKeepsCounts(s: State)
    requires DepthExact(s) && HighWater(s) && !WriterBlocked(s)
    ensures DepthExact(WriterNext(s)) && HighWater(WriterNext(s)) && WriterNext(s).hwm == s.hwm
  {
  }

  lemma WriterKeepsLocks(s: State)
    requires Locks(s) && !WriterBlocked(s)
    ensures Locks(WriterNext(s))
  {
  }

  lemma WriterKeepsWakeups(s: State)
    requires Locks(s) && NoLostWakeup(s) && !WriterBlocked(s)
    ensures NoLostWakeup(WriterNext(s))
  {
  }

  lemma WriterKeepsPurpose(s: State)
    requires Purpose(s) && !WriterBlocked(s)
    ensures Purpose(WriterNext(s))
  {
  }

  /** While an acknowledgement is outstanding, the main thread is the one waiting for it. */
  lemma OutstandingFlush(s: State)
    requires Conserved(s) && FlushCount(s) && (s.writer.AckLock? || s.writer.AckAdd?)
    ensures Goal(s.main).AwaitFlush? && !Pushing(s.main) && !s.main.FlushAlloc? && Flushes(s.done) <= Flushes(s.sent)
  {
    FlushesConcat(s.done, Held(s.writer));
    FlushesConcat(s.done + Held(s.writer), Oldest(s.stack));
  }

  lemma WriterKeepsFlushDone(s: State)
    requires FlushDone(s) && !WriterBlocked(s)
    ensures FlushDone(WriterNext(s))
  {
    if s.writer.Work? && s.writer.chain != [] {
      FlushesSnoc(s.done, s.writer.chain[0]);
    }
  }

  lemma WriterKeepsFlushCount(s: State)
    requires Conserved(s) && FlushCount(s) && !WriterBlocked(s)
    ensures FlushCount(WriterNext(s))
  {
    WriterKeepsFlushDone(s);
    if s.writer.AckAdd? {
      AckKeepsFlushAhead(s);
    } else {
      WriterKeepsFlushAhead(s);
    }
  }

  lemma AckKeepsFlushAhead(s: State)
    requires Conserved(s) && FlushCount(s) && s.writer.AckAdd?
    ensures FlushAhead(WriterNext(s)) && FlushStart(WriterNext(s))
  {
    OutstandingFlush(s);
  }

  lemma WriterKeepsFlushAhead(s: State)
    requires FlushAhead(s) && FlushStart(s) && !WriterBlocked(s) && !s.writer.AckAdd?
    ensures FlushAhead(WriterNext(s)) && FlushStart(WriterNext(s))
  {
    assert WriterNext(s).sent == s.sent && WriterNext(s).flushSeq == s.flushSeq;
  }

  lemma WriterKeepsStopLast(s: State)
    requires StopLast(s) && !WriterBlocked(s)
    ensures StopLast(WriterNext(s))
  {
    if s.writer.Work? && s.writer.chain != [] {
      var c := s.writer.chain[0];
      assert Stop in s.done + [c] <==> Stop in s.done || c == Stop;
    }
  }

  lemma WriterKeeps(s: State, n: nat)
    requires Inv(s, n) && !WriterBlocked(s)
    ensures Inv(WriterNext(s), n) && WriterNext(s).hwm == s.hwm
  {
    WriterKeepsConserved(s, n);
    WriterKeepsCounts(s);
    WriterKeepsLocks(s);
    WriterKeepsWakeups(s);
    WriterKeepsPurpose(s);
    WriterKeepsFlushCount(s);
    WriterKeepsStopLast(s);
  }

  /** A change of place that moves no command, lock or counter. */
  ghost predicate SameData(s: State, s': State) {
    && s'.stack == s.stack && s'.depth == s.depth && s'.hwm == s.hwm && s'.peak == s.peak
    && s'.wake == s.wake && s'.ack == s.ack && s'.flushSeq == s.flushSeq
    && s'.slots == s.slots && s'.sent == s.sent && s'.done == s.done
  }

  lemma CallKeeps(s: State, n: nat, s': State)
    requires Inv(s, n) && s.main.Idle? && SameData(s, s') && s'.writer == s.writer
    requires s'.main.FlushRead? || (s'.main.LoadHead? && s'.main.k.Return? && !s'.main.c.Flush? && !s'.main.c.Stop?)
    ensures Inv(s', n)
  {
    assert Conserved(s') && InOrder(s', n) && DepthExact(s') && HighWater(s');
    assert Locks(s') && NoLostWakeup(s');
    assert FlushCount(s');
    assert StopLast(s');
  }

  lemma SpuriousKeeps(s: State, n: nat, s': State)
    requires Inv(s, n) && SameData(s, s')
    requires (s'.main == s.main && s.writer.Sleep? && s'.writer.Relock?)
             || (s.main.FlushSleep? && s'.main == FlushRelock(s.main.before, s.main.destroy) && s'.writer == s.writer)
    ensures Inv(s', n)
  {
    assert Conserved(s') && InOrder(s', n) && DepthExact(s') && HighWater(s');
    assert Locks(s') && NoLostWakeup(s');
    assert FlushCount(s');
    assert StopLast(s');
  }

  lemma StepKeeps(s: State, n: nat, a: Act)
    requires Inv(s, n) && Enabled(s, a)
    ensures Inv(Next(s, a), n) && Next(s, a).hwm >= s.hwm
  {
    if a.MainStep? {
      MainKeeps(s, n, a.ok);
    } else if a.WriterStep? {
      WriterKeeps(s, n);
    } else if Next(s, a) != s {
      if a.MainSpurious? || a.WriterSpurious? { SpuriousKeeps(s, n, Next(s, a)); } else { CallKeeps(s, n, Next(s, a)); }
    }
  }

  // ------------------------------------------------------------- every run

  /** An interleaving: the order in which the two threads take their steps. */
  ghost predicate Legal(s: State, acts: seq<Act>)
    decreases |acts|
  {
    acts == [] || (Enabled(s, acts[0]) && Legal(Next(s, acts[0]), acts[1..]))
  }

  ghost function Outcome(s: State, acts: seq<Act>): State
    requires Legal(s, acts)
    decreases |acts|
  {
    if acts == [] then s else Outcome(Next(s, acts[0]), acts[1..])
  }

  ghost predicate Reachable(s: State, n: nat) {
    exists acts :: Legal(Init(n), acts) && s == Outcome(Init(n), acts)
  }

  lemma {:induction false} RunKeeps(s: State, n: nat, acts: seq<Act>)
    requires Inv(s, n) && Legal(s, acts)
    ensures Inv(Outcome(s, acts), n)
    decreases |acts|
  {
    if acts != [] {
      StepKeeps(s, n, acts[0]);
      RunKeeps(Next(s, acts[0]), n, acts[1..]);
    }
  }

  lemma InitInv(n: nat)
    ensures Inv(Init(n), n)
  {
  }

  lemma ReachableInv(s: State, n: nat)
    requires Reachable(s, n)
    ensures Inv(s, n)
  {
    InitInv(n);
    var acts :| Legal(Init(n), acts) && s == Outcome(Init(n), acts);
    RunKeeps(Init(n), n, acts);
  }

  lemma {:induction false} LegalSnoc(s: State, acts: seq<Act>, a: Act)
    requires Legal(s, acts) && Enabled(Outcome(s, acts), a)
    ensures Legal(s, acts + [a]) && Outcome(s, acts + [a]) == Next(Outcome(s, acts), a)
    decreases |acts|
  {
    if acts == [] {
      assert [] + [a] == [a] && [a][1..] == [];
    } else {
      LegalSnoc(Next(s, acts[0]), acts[1..], a);
      assert (acts + [a])[1..] == acts[1..] + [a];
    }
  }

  lemma InitReachable(n: nat)
    ensures Reachable(Init(n), n)
  {
    assert Legal(Init(n), []) && Outcome(Init(n), []) == Init(n);
  }

  lemma ReachableNext(s: State, n: nat, a: Act)
    requires Reachable(s, n) && Enabled(s, a)
    ensures Reachable(Next(s, a), n)
  {
    var acts :| Legal(Init(n), acts) && s == Outcome(Init(n), acts);
    LegalSnoc(Init(n), acts, a);
  }

  /** No interleaving loses, duplicates or reorders a command: what the files hold is what the
      commands executed so far would have made them synchronously, these are the first ones sent,
      and when the writer is gone they are all of them. */
  lemma SameAsSynchronous(s: State, n: nat)
    requires Reachable(s, n)
    ensures s.done <= s.sent
    ensures !s.writer.Exited? ==> s.slots == Run(Blank(n), s.done)
    ensures s.writer.Exited? ==> s.done == s.sent && s.slots == CloseAll(Run(Blank(n), s.sent))
  {
    ReachableInv(s, n);
    if s.writer.Exited? {
      var i :| 0 <= i < |s.done| && s.done[i] == Stop;
      assert s.sent[i] == Stop;
      assert i == |s.sent| - 1;
    }
  }

  /** When the writer is gone, every file is closed and no line is left in a buffer. */
  lemma ExitClosesAll(s: State, n: nat)
    requires Reachable(s, n) && s.writer.Exited?
    ensures forall i :: 0 <= i < |s.slots| ==> s.slots[i].file.None? && s.slots[i].synced == |s.slots[i].lines|
  {
    SameAsSynchronous(s, n);
    RunClosedSynced(n, s.sent);
  }

  lemma {:induction false} FlushCounted(c: seq<Cmd>)
    ensures LastIs(c, Flush) ==> Flushes(c) > 0
  {
  }

  /** With nothing held and nothing queued, everything sent is done. */
  lemma Caught(s: State)
    requires Conserved(s) && FlushDone(s) && FlushAhead(s) && s.main.FlushUnlock?
    ensures s.done == s.sent
  {
    var due := Held(s.writer) + Oldest(s.stack);
    assert s.sent == s.done + due;
    FlushesConcat(s.done, due);
    FlushCounted(due);
  }

  /** The main thread is inside a flush. */
  ghost predicate InFlush(m: MainPc) {
    m.FlushRead? || m.FlushAlloc? || m.FlushUnlock? || Goal(m).AwaitFlush?
  }

  /** A step by which a flush returns; `found` says whether memory was found for its command. */
  ghost predicate FlushReturns(s: State, a: Act, found: bool) {
    && a.MainStep? && Enabled(s, a)
    && if found then s.main.FlushUnlock? else s.main.FlushAlloc? && !a.ok
  }

  /** There are no other returns from a flush. */
  lemma OnlyReturns(s: State, a: Act)
    requires Enabled(s, a)
    ensures InFlush(s.main) && !InFlush(Next(s, a).main) <==> FlushReturns(s, a, true) || FlushReturns(s, a, false)
  {
  }

  /** Everything sent so far is done, and no line is left in a buffer. */
  ghost predicate Barrier(s: State, n: nat) {
    s.done == s.sent && s.slots == Run(Blank(n), s.sent) && AllSynced(s.slots)
  }

  /** A flush whose command was allocated returns only behind its barrier. */
  lemma AllocatedFlush(s: State, n: nat, a: Act)
    requires Reachable(s, n) && FlushReturns(s, a, true)
    ensures Barrier(s, n) && Barrier(Next(s, a), n)
  {
    ReachableInv(s, n);
    Caught(s);
    FlushSyncs(n, s.sent);
  }

  /** A flush whose command could not be allocated returns at once: between its call and its return
      it has pushed, counted and signalled nothing, so nothing is executed or synced on its account. */
  lemma UnallocatedFlush(s: State, a: Act)
    requires FlushReturns(s, a, false) || (s.main.FlushRead? && a.MainStep? && Enabled(s, a)) || (s.main.Idle? && a.CallFlush?)
    ensures SameData(s, Next(s, a)) && Next(s, a).writer == s.writer
  {
  }

  ghost predicate PushedOnly(s: State, n: nat) {
    Reachable(s, n) && s.done == [] && s.writer.Lock? && s.wake == Nobody
  }

  lemma MainGoesOn(s: State, n: nat)
    requires PushedOnly(s, n) && !MainBlocked(s)
    ensures Reachable(MainNext(s, true), n) && MainNext(s, true).done == [] && MainNext(s, true).writer.Lock?
  {
    ReachableNext(s, n, MainStep(true));
  }

  /** A command has been sent, its call has returned, and the writer has not even started. */
  lemma StillQueued(n: nat) returns (s: State)
    ensures PushedOnly(s, n) && s.main.Idle? && s.sent == [Close(0)]
  {
    InitReachable(n);
    s := Next(Init(n), CallClose(0, true));
    ReachableNext(Init(n), n, CallClose(0, true));
    MainGoesOn(s, n);
    s := MainNext(s, true);
    MainGoesOn(s, n);
    s := MainNext(s, true);
    assert s.main == CountUp(Return) && s.sent == [Close(0)];
    s := CountsUp(s, n);
    s := WakesUp(s, n);
  }

  /** From the push to the wake-up call. */
  lemma CountsUp(s: State, n: nat) returns (z: State)
    requires PushedOnly(s, n) && s.main == CountUp(Return)
    ensures PushedOnly(z, n) && z.main == WakeLock(Return) && z.sent == s.sent
  {
    MainGoesOn(s, n);
    var s1 := MainNext(s, true);
    MainGoesOn(s1, n);
    var s2 := MainNext(s1, true);
    MainGoesOn(s2, n);
    z := MainNext(s2, true);
  }

  /** From the wake-up call to the return. */
  lemma WakesUp(s: State, n: nat) returns (z: State)
    requires PushedOnly(s, n) && s.main == WakeLock(Return)
    ensures PushedOnly(z, n) && z.main.Idle? && z.sent == s.sent
  {
    MainGoesOn(s, n);
    var s1 := MainNext(s, true);
    ReachableNext(s1, n, MainStep(true));
    var s2 := MainNext(s1, true);
    ReachableNext(s2, n, MainStep(true));
    z := MainNext(s2, true);
  }

  /** A command, and then a flush that finds no memory: it returns while the command is still queued. */
  lemma FlushCanSkip(n: nat)
    ensures exists s, a :: Reachable(s, n) && FlushReturns(s, a, false) && !Barrier(Next(s, a), n) && Next(s, a).main.Idle?
  {
    var s := StillQueued(n);
    ReachableNext(s, n, CallFlush);
    var s1 := Next(s, CallFlush);
    ReachableNext(s1, n, MainStep(true));
    var s2 := Next(s1, MainStep(true));
    assert FlushReturns(s2, MainStep(false), false);
    assert Next(s2, MainStep(false)).sent == [Close(0)] && Next(s2, MainStep(false)).done == [];
  }

  /** Over all returns from a flush: the barrier is guaranteed if and only if the flush command was allocated. */
  lemma FlushBarrier(n: nat, found: bool)
    ensures (forall s, a :: Reachable(s, n) && FlushReturns(s, a, found) ==> Barrier(Next(s, a), n)) <==> found
  {
    if found {
      forall s, a | Reachable(s, n) && FlushReturns(s, a, found) ensures Barrier(Next(s, a), n) {
        AllocatedFlush(s, n, a);
      }
    } else {
      FlushCanSkip(n);
    }
  }

  /** The writer never sleeps on a queued command unless the signal for it is still to come. */
  lemma WakeupDue(s: State, n: nat)
    requires Reachable(s, n) && s.writer.Sleep? && s.stack != []
    ensures SignalDue(s.main)
  {
    ReachableInv(s, n);
  }

  /** Inside a call, both threads are stuck exactly when the sentinel of a destroy could not be
      allocated: then the main thread joins a writer that was never told to stop. */
  lemma StuckOnlyWithoutSentinel(s: State, n: nat)
    requires Reachable(s, n) && !s.main.Idle? && !s.main.Gone?
    ensures MainBlocked(s) && WriterBlocked(s) <==> s.main.Joining? && Stop !in s.sent && s.writer.Sleep?
  {
    ReachableInv(s, n);
    if MainBlocked(s) && WriterBlocked(s) {
      if s.writer.Sleep? {
        assert s.stack == [];
        assert s.sent == s.done;
      }
      if s.writer.Exited? {
        DoneWasSent(s);
      }
    }
  }

  lemma {:induction false} JoinStays(s: State, n: nat, acts: seq<Act>)
    requires Inv(s, n) && s.main.Joining? && Stop !in s.sent && Legal(s, acts)
    ensures Outcome(s, acts).main.Joining? && Stop !in Outcome(s, acts).sent
    decreases |acts|
  {
    if acts != [] {
      DoneWasSent(s);
      StepKeeps(s, n, acts[0]);
      JoinStays(Next(s, acts[0]), n, acts[1..]);
    }
  }

  /** A destroy whose sentinel could not be allocated never returns, whatever the threads do from then on. */
  lemma JoinsForever(s: State, n: nat, acts: seq<Act>)
    requires Reachable(s, n) && s.main.Joining? && Stop !in s.sent && Legal(s, acts)
    ensures Outcome(s, acts).main.Joining?
  {
    ReachableInv(s, n);
    JoinStays(s, n, acts);
  }

  /** Such a destroy exists: neither the flush nor the sentinel finds memory. */
  lemma DestroyCanHang(n: nat)
    ensures exists s :: Reachable(s, n) && s.main.Joining? && Stop !in s.sent
  {
    InitReachable(n);
    ReachableNext(Init(n), n, CallDestroy);
    var s1 := Next(Init(n), CallDestroy);
    ReachableNext(s1, n, MainStep(true));
    var s2 := Next(s1, MainStep(true));
    ReachableNext(s2, n, MainStep(false));
    var s3 := Next(s2, MainStep(false));
    ReachableNext(s3, n, MainStep(false));
    assert Next(s3, MainStep(false)).main.Joining?;
  }

  /** The depth counter is the stack's length, short of a push not yet counted and long of a
      drain not yet subtracted; the high-water mark never falls and covers every completed push. */
  lemma QueueAccounting(s: State, n: nat, a: Act)
    requires Reachable(s, n) && Enabled(s, a)
    ensures s.depth == |s.stack| - Uncounted(s.main) + Unsubtracted(s.writer)
    ensures s.peak <= s.hwm <= Next(s, a).hwm
  {
    ReachableInv(s, n);
    StepKeeps(s, n, a);
  }

  /** The counter is below zero, and then -1, exactly while the one command pushed and not yet counted
      has been drained and subtracted already. */
  lemma DepthNegativeIff(s: State, n: nat)
    requires Reachable(s, n)
    ensures s.depth < 0 <==> s.stack == [] && s.main.CountUp? && Unsubtracted(s.writer) == 0
    ensures s.depth >= -1
  {
    ReachableInv(s, n);
  }

  /** That happens: a command is drained before its push was counted. */
  lemma DepthCanBeNegative(n: nat)
    ensures exists s :: Reachable(s, n) && s.depth == -1
  {
    InitReachable(n);
    ReachableNext(Init(n), n, CallClose(0, true));
    var s1 := Next(Init(n), CallClose(0, true));
    ReachableNext(s1, n, MainStep(true));
    var s2 := Next(s1, MainStep(true));
    ReachableNext(s2, n, MainStep(true));
    var s3 := Next(s2, MainStep(true));
    ReachableNext(s3, n, WriterStep);
    var s4 := Next(s3, WriterStep);
    ReachableNext(s4, n, WriterStep);
    var s5 := Next(s4, WriterStep);
    ReachableNext(s5, n, WriterStep);
    var s6 := Next(s5, WriterStep);
    ReachableNext(s6, n, WriterStep);
    var s7 := Next(s6, WriterStep);
    ReachableNext(s7, n, WriterStep);
    assert Next(s7, WriterStep).depth == -1;
  }

  // ------------------------------------------------------------- progress

  ghost function FlushRest(destroy: bool): nat {
    if destroy then 10 else 0
  }

  ghost function AfterPush(k: After): nat {
    match k
    case Return => 0
    case AwaitExit => 1
    case AwaitFlush(_, d) => FlushRest(d) + 6
  }

  /** An upper bound on the steps the main thread still takes in its call. */
  ghost function MainLeft(m: MainPc): nat {
    match m
    case Idle => 0
    case FlushRead(d) => FlushRest(d) + 16
    case FlushAlloc(_, d) => FlushRest(d) + 15
    case LoadHead(_, k) => AfterPush(k) + 8
    case CasHead(_, k, _) => AfterPush(k) + 7
    case CountUp(k) => AfterPush(k) + 6
    case LoadHwm(k, _) => AfterPush(k) + 5
    case CasHwm(k, _, _) => AfterPush(k) + 4
    case WakeLock(k) => AfterPush(k) + 3
    case WakeSignal(k) => AfterPush(k) + 2
    case WakeUnlock(k) => AfterPush(k) + 1
    case FlushLock(_, d) => FlushRest(d) + 6
    case FlushCheck(_, d) => FlushRest(d) + 5
    case FlushSleep(_, d) => FlushRest(d) + 4
    case FlushRelock(_, d) => FlushRest(d) + 3
    case FlushRecheck(_, d) => FlushRest(d) + 2
    case FlushUnlock(d) => FlushRest(d) + 1
    case StopAlloc => 10
    case Joining => 1
    case Gone => 0
  }

  ghost function WriterLeft(w: WriterPc): nat {
    match w
    case Lock => 5
    case Check => 4
    case Sleep => 0
    case Relock => 5
    case Unlock => 3
    case Drain => 2
    case CountDown(chain, _) => 10 * |chain| + 7
    case Work(chain, _) => 10 * |chain| + 6
    case AckLock(chain, _) => 10 * |chain| + 10
    case AckAdd(chain, _) => 10 * |chain| + 9
    case AckWake(chain, _) => 10 * |chain| + 8
    case AckUnlock(chain, _) => 10 * |chain| + 7
    case Closing => 1
    case Exited => 0
  }

  /** The writer's remaining work, plus one if the main thread's compare-and-swap is bound to fail. */
  ghost function WorkLeft(s: State): nat {
    WriterLeft(s.writer) + 20 * |s.stack|
    + if s.main.CasHead? && !SameHead(s.main.seen, s.stack) then 1 else 0
  }

  /** A step that is not a new call, a wake-up for nothing, a compare-and-swap that fails for
      nothing, or going back to sleep after a wake-up for nothing. */
  ghost predicate Genuine(s: State, a: Act) {
    match a
    case MainStep(ok) =>
      && (s.main.CasHead? || s.main.CasHwm? ==> ok)
      && !(s.main.FlushRecheck? && s.flushSeq == s.main.before)
    case WriterStep => true
    case _ => false
  }

  lemma PushProgress(s: State)
    requires s.main.CasHead?
    ensures var s' := MainNext(s, true);
            if SameHead(s.main.seen, s.stack) then MainLeft(s'.main) < MainLeft(s.main)
            else MainLeft(s'.main) == MainLeft(s.main) && WorkLeft(s') < WorkLeft(s)
  {
  }

  /** Where the main thread stands after an uncontended step, apart from a push. */
  ghost predicate Onward(m: MainPc, m': MainPc) {
    match m
    case FlushRead(d) => m'.FlushAlloc? && m'.destroy == d
    case FlushAlloc(b, d) => m' == LoadHead(Flush, AwaitFlush(b, d)) || m' == AfterFlush(d)
    case LoadHead(c, k) => m'.CasHead? && m'.k == k
    case CountUp(k) => m'.LoadHwm? && m'.k == k
    case LoadHwm(k, _) => m'.CasHwm? && m'.k == k
    case CasHwm(k, _, _) => m' == WakeLock(k)
    case WakeLock(k) => m' == WakeSignal(k)
    case WakeSignal(k) => m' == WakeUnlock(k)
    case WakeUnlock(k) => m' == Queued(k)
    case FlushLock(b, d) => m' == FlushCheck(b, d)
    case FlushCheck(b, d) => m' == FlushSleep(b, d) || m' == FlushUnlock(d)
    case FlushRelock(b, d) => m' == FlushRecheck(b, d)
    case FlushRecheck(_, d) => m' == FlushUnlock(d)
    case FlushUnlock(d) => m' == AfterFlush(d)
    case StopAlloc => m' == LoadHead(Stop, AwaitExit) || m' == Joining
    case Joining => m' == Gone
    case _ => false
  }

  lemma OnwardLess(m: MainPc, m': MainPc)
    requires Onward(m, m')
    ensures MainLeft(m') < MainLeft(m)
  {
  }

  lemma MainProgress(s: State, ok: bool)
    requires HighWater(s) && !MainBlocked(s) && Genuine(s, MainStep(ok)) && !s.main.CasHead?
    ensures MainLeft(MainNext(s, ok).main) < MainLeft(s.main)
  {
    assert Onward(s.main, MainNext(s, ok).main);
    OnwardLess(s.main, MainNext(s, ok).main);
  }

  lemma WriterProgress(s: State)
    requires NoLostWakeup(s) && !WriterBlocked(s)
    ensures MainLeft(WriterNext(s).main) <= MainLeft(s.main) && WorkLeft(WriterNext(s)) < WorkLeft(s)
  {
  }

  /** Every genuine step brings the call in progress nearer to its end, lexicographically in the
      main thread's remaining steps and the writer's remaining work. */
  lemma GenuineStepsEnd(s: State, n: nat, a: Act)
    requires Reachable(s, n) && Enabled(s, a) && Genuine(s, a)
    ensures var s' := Next(s, a);
            MainLeft(s'.main) < MainLeft(s.main) || (MainLeft(s'.main) == MainLeft(s.main) && WorkLeft(s') < WorkLeft(s))
  {
    ReachableInv(s, n);
    GenuineLess(s, n, a);
  }

  lemma GenuineLess(s: State, n: nat, a: Act)
    requires Inv(s, n) && Enabled(s, a) && Genuine(s, a)
    ensures var s' := Next(s, a);
            MainLeft(s'.main) < MainLeft(s.main) || (MainLeft(s'.main) == MainLeft(s.main) && WorkLeft(s') < WorkLeft(s))
  {
    if a.MainStep? && s.main.CasHead? {
      PushProgress(s);
    } else if a.MainStep? {
      MainProgress(s, a.ok);
    } else {
      WriterProgress(s);
    }
  }

  ghost predicate NoCall(a: Act) {
    a.MainStep? || a.WriterStep? || a.MainSpurious? || a.WriterSpurious?
  }

  /** One number for both measures. */
  ghost function Left(s: State): nat {
    40 * MainLeft(s.main) + WorkLeft(s)
  }

  lemma MainWork(s: State, ok: bool)
    requires Purpose(s) && !MainBlocked(s)
    ensures WorkLeft(MainNext(s, ok)) <= WorkLeft(s) + 26
  {
    if s.main.CasHead? && SameHead(s.main.seen, s.stack) { PushSees(s); }
  }

  /** How much a step that is not genuine can add. */
  lemma SpuriousCost(s: State, a: Act)
    requires HighWater(s) && Enabled(s, a) && NoCall(a) && !Genuine(s, a)
    ensures Left(Next(s, a)) <= Left(s) + 80
  {
  }

  lemma StepCost(s: State, n: nat, a: Act)
    requires Inv(s, n) && Enabled(s, a) && NoCall(a)
    ensures Left(Next(s, a)) + 1 <= Left(s) + if Genuine(s, a) then 0 else 81
  {
    if Genuine(s, a) {
      GenuineLess(s, n, a);
      if a.MainStep? { MainWork(s, a.ok); }
    } else {
      SpuriousCost(s, a);
    }
  }

  /** The steps of a run that are not genuine. */
  ghost function Spurious(s: State, acts: seq<Act>): nat
    requires Legal(s, acts)
    decreases |acts|
  {
    if acts == [] then 0
    else (if Genuine(s, acts[0]) then 0 else 1) + Spurious(Next(s, acts[0]), acts[1..])
  }

  lemma {:induction false} RunCost(s: State, n: nat, acts: seq<Act>)
    requires Inv(s, n) && Legal(s, acts) && forall a :: a in acts ==> NoCall(a)
    ensures |acts| + Left(Outcome(s, acts)) <= Left(s) + 81 * Spurious(s, acts)
    decreases |acts|
  {
    if acts != [] {
      StepCost(s, n, acts[0]);
      StepKeeps(s, n, acts[0]);
      RunCost(Next(s, acts[0]), n, acts[1..]);
    }
  }

  lemma {:induction false} OutcomeReachable(s: State, n: nat, acts: seq<Act>)
    requires Reachable(s, n) && Legal(s, acts)
    ensures Reachable(Outcome(s, acts), n)
    decreases |acts|
  {
    if acts != [] {
      ReachableNext(s, n, acts[0]);
      OutcomeReachable(Next(s, acts[0]), n, acts[1..]);
    }
  }

  /** Every call returns.  However the two threads take turns until the next call, they take a bounded
      number of steps, up to a constant for each wake-up without a signal or compare-and-swap that fails
      for nothing; and where neither can go on, the call has returned, or it is a destroy that missed its sentinel. */
  lemma CallsReturn(s: State, n: nat, acts: seq<Act>)
    requires Reachable(s, n) && Legal(s, acts) && forall a :: a in acts ==> NoCall(a)
    ensures |acts| <= Left(s) + 81 * Spurious(s, acts)
    ensures var z := Outcome(s, acts);
            MainBlocked(z) && WriterBlocked(z) ==> z.main.Idle? || z.main.Gone? || (z.main.Joining? && Stop !in z.sent)
  {
    ReachableInv(s, n);
    RunCost(s, n, acts);
    OutcomeReachable(s, n, acts);
    var z := Outcome(s, acts);
    if !z.main.Idle? && !z.main.Gone? { StuckOnlyWithoutSentinel(z, n); }
  }
}
