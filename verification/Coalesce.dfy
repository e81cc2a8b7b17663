/** Writing files in the background: at most one write per path under way, the newest
    waiting buffer kept, every file replaced as a whole. */
module Coalesce {
  import opened Wrappers
  import opened Keys

  type Data = seq<byte>

  /** What a worker has done for a queued write: nothing yet, opened the temporary file and
      written some of it, or ended (with the rename, if all went well). */
  datatype Stage = Waiting | Writing(written: nat) | Finished(ok: bool)

  /** A write handed to the workers, of submission number `id`, with its own temporary file. */
  datatype Job = Job(id: nat, stage: Stage, tmp: Data)

  /** One path.  `pending` and `inFlight` are the program's own; the rest records what happened:
      the submissions (numbered from 0), what was renamed onto the path, whose buffer was freed,
      and how the newest ended write (the last numbered, that is) ended. */
  datatype Slot = Slot(
    pending: Option<nat>, inFlight: bool, jobs: seq<Job>,
    sent: seq<Data>, renamed: seq<(nat, Data)>, released: seq<nat>, last: Option<(nat, bool)>)

  const FRESH := Slot(None, false, [], [], [], [], None)

  // ------------------------------------------------------------- steps on one path

  /** Writes submission `id` at once when the pool is down, otherwise hands it over or lets it wait. */
  function Launch(s: Slot, id: nat, active: bool, ok: bool): Slot
    requires id < |s.sent|
  {
    if !active then
      s.(renamed := if ok then s.renamed + [(id, s.sent[id])] else s.renamed,
         released := s.released + [id], last := Newest(s.last, id, ok))
    else if s.inFlight then
      s.(pending := Some(id), released := if s.pending.Some? then s.released + [s.pending.value] else s.released)
    else
      s.(inFlight := true, jobs := s.jobs + [Job(id, Waiting, [])])
  }

  /** The newer of the recorded end and this one. */
  function Newest(last: Option<(nat, bool)>, id: nat, ok: bool): Option<(nat, bool)> {
    if last.Some? && last.value.0 > id then last else Some((id, ok))
  }

  function Submit(s: Slot, data: Data, active: bool, ok: bool): Slot {
    Launch(s.(sent := s.sent + [data]), |s.sent|, active, ok)
  }

  /** A worker's step: open (or fail), write the next `n` bytes (none when interrupted), fail, or rename. */
  datatype WorkerStep = Open(ok: bool) | Chunk(n: nat) | WriteError | Rename(ok: bool)

  predicate CanWork(j: Job, len: nat, w: WorkerStep) {
    match w
    case Open(_) => j.stage.Waiting?
    case Chunk(n) => j.stage.Writing? && j.stage.written < len && n <= len - j.stage.written
    case WriteError => j.stage.Writing? && j.stage.written < len
    case Rename(_) => j.stage.Writing? && j.stage.written >= len
  }

  function Worked(s: Slot, w: WorkerStep): Slot
    requires |s.jobs| > 0 && s.jobs[0].id < |s.sent| && CanWork(s.jobs[0], |s.sent[s.jobs[0].id]|, w)
  {
    var j := s.jobs[0];
    var data := s.sent[j.id];
    match w
    case Open(ok) => s.(jobs := [if ok then j.(stage := Writing(0), tmp := []) else j.(stage := Finished(false))] + s.jobs[1..])
    case Chunk(n) =>
      s.(jobs := [j.(stage := Writing(j.stage.written + n), tmp := j.tmp + data[j.stage.written..j.stage.written + n])] + s.jobs[1..])
    case WriteError => s.(jobs := [j.(stage := Finished(false), tmp := [])] + s.jobs[1..])
    case Rename(ok) =>
      s.(jobs := [j.(stage := Finished(ok), tmp := [])] + s.jobs[1..],
         renamed := if ok then s.renamed + [(j.id, j.tmp)] else s.renamed)
  }

  /** The completion on the main thread: the slot is idle again, a waiting buffer is launched, the written one freed. */
  function Done(s: Slot, active: bool, ok: bool): Slot
    requires |s.jobs| > 0 && s.jobs[0].stage.Finished? && (s.pending.Some? ==> s.pending.value < |s.sent|)
  {
    var j := s.jobs[0];
    var idle := s.(inFlight := false, jobs := s.jobs[1..], last := Newest(s.last, j.id, j.stage.ok));
    var next := if s.pending.Some? then Launch(idle.(pending := None), s.pending.value, active, ok) else idle;
    next.(released := next.released + [j.id])
  }

  // ------------------------------------------------------------- what always holds for a path

  ghost predicate OneWriter(s: Slot) {
    && |s.jobs| <= 1 && (s.inFlight <==> |s.jobs| == 1) && (s.pending.Some? ==> s.inFlight)
  }

  ghost predicate LastBelow(s: Slot, id: int) {
    s.last.None? || s.last.value.0 < id
  }

  /** The newest submission waits, or else is being written, or else has ended. */
  ghost predicate NewestKept(s: Slot) {
    && (s.pending.Some? ==> s.pending.value == |s.sent| - 1 && LastBelow(s, s.pending.value))
    && (s.pending.None? && s.jobs != [] && LastBelow(s, s.jobs[0].id) ==> s.jobs[0].id == |s.sent| - 1)
    && (s.pending.None? && (s.jobs == [] || !LastBelow(s, s.jobs[0].id)) && s.sent != [] ==> s.last.Some? && s.last.value.0 == |s.sent| - 1)
    && (s.jobs != [] ==> s.jobs[0].id < |s.sent|)
    && (s.pending.Some? && s.jobs != [] ==> s.jobs[0].id < s.pending.value)
    && LastBelow(s, |s.sent|)
    && (s.jobs != [] && s.last.Some? ==> s.last.value.0 != s.jobs[0].id)
  }

  /** What was renamed onto the path: whole submissions, in order of submission. */
  ghost predicate WholeInOrder(s: Slot) {
    && (forall i :: 0 <= i < |s.renamed| ==> s.renamed[i].0 < |s.sent| && s.renamed[i].1 == s.sent[s.renamed[i].0])
    && (forall i, j :: 0 <= i < j < |s.renamed| ==> s.renamed[i].0 < s.renamed[j].0)
  }

  ghost function LastRenamed(s: Slot): int {
    if s.renamed == [] then -1 else s.renamed[|s.renamed| - 1].0
  }

  ghost predicate EndIsRename(s: Slot, id: nat, ok: bool) {
    if ok then LastRenamed(s) == id else LastRenamed(s) < id
  }

  /** A successful end is a rename; nothing newer than the write under way, or than the buffer
      waiting behind it, has been renamed. */
  ghost predicate EndsWithRename(s: Slot) {
    && (s.jobs != [] && !s.jobs[0].stage.Finished? ==> LastRenamed(s) < s.jobs[0].id)
    && (s.jobs != [] && s.jobs[0].stage.Finished? && LastBelow(s, s.jobs[0].id) ==> EndIsRename(s, s.jobs[0].id, s.jobs[0].stage.ok))
    && (s.last.Some? && (s.jobs == [] || !LastBelow(s, s.jobs[0].id)) ==> EndIsRename(s, s.last.value.0, s.last.value.1))
    && (s.jobs != [] && !LastBelow(s, s.jobs[0].id) ==> s.jobs[0].stage.Finished?)
    && (s.pending.Some? ==> LastRenamed(s) < s.pending.value)
  }

  /** The temporary file holds the part written so far. */
  ghost predicate TmpExact(s: Slot) {
    s.jobs != [] && s.jobs[0].id < |s.sent| && s.jobs[0].stage.Writing? ==>
      var data := s.sent[s.jobs[0].id];
      s.jobs[0].stage.written <= |data| && s.jobs[0].tmp == data[..s.jobs[0].stage.written]
  }

  ghost function HeldBuffers(s: Slot): multiset<nat> {
    (if s.pending.Some? then multiset{s.pending.value} else multiset{})
    + (if s.jobs != [] then multiset{s.jobs[0].id} else multiset{})
  }

  ghost function AllIds(n: nat): multiset<nat> {
    if n == 0 then multiset{} else AllIds(n - 1) + multiset{n - 1}
  }

  /** Every buffer is held in one place or has been released once. */
  ghost predicate ReleasedOnce(s: Slot) {
    multiset(s.released) + HeldBuffers(s) == AllIds(|s.sent|)
  }

  ghost predicate SlotOk(s: Slot) {
    OneWriter(s) && NewestKept(s) && WholeInOrder(s) && EndsWithRename(s) && TmpExact(s) && ReleasedOnce(s)
  }

  predicate WorkersDone(s: Slot) {
    forall i :: 0 <= i < |s.jobs| ==> s.jobs[i].stage.Finished?
  }

  /** No buffer waits, and no worker is still at it. */
  predicate CanWriteNow(s: Slot) {
    s.pending.None? && WorkersDone(s)
  }

  lemma RenamedBelow(s: Slot, i: nat)
    requires WholeInOrder(s) && i < |s.renamed|
    ensures s.renamed[i].0 <= LastRenamed(s)
  {
  }

  /** Renaming a whole submission newer than all renamed before keeps the history in order. */
  lemma AppendRenamed(s: Slot, t: Slot, id: nat)
    requires WholeInOrder(s) && LastRenamed(s) < id < |t.sent| && |s.sent| <= |t.sent|
    requires forall k :: 0 <= k < |s.sent| ==> t.sent[k] == s.sent[k]
    requires t.renamed == s.renamed + [(id, t.sent[id])]
    ensures WholeInOrder(t) && LastRenamed(t) == id
  {
    forall i | 0 <= i < |s.renamed| ensures s.renamed[i].0 < id && t.renamed[i] == s.renamed[i] {
      RenamedBelow(s, i);
    }
  }

  lemma SameRenamed(s: Slot, t: Slot)
    requires WholeInOrder(s) && |s.sent| <= |t.sent| && t.renamed == s.renamed
    requires forall k :: 0 <= k < |s.sent| ==> t.sent[k] == s.sent[k]
    ensures WholeInOrder(t) && LastRenamed(t) == LastRenamed(s) < |t.sent|
  {
  }

  lemma SubmitKeepsHistory(s: Slot, data: Data, active: bool, ok: bool)
    requires SlotOk(s) && (active || CanWriteNow(s))
    ensures WholeInOrder(Submit(s, data, active, ok)) && EndsWithRename(Submit(s, data, active, ok))
  {
    var t := Submit(s, data, active, ok);
    SameRenamed(s, s);
    if !active && ok {
      AppendRenamed(s, t, |s.sent|);
    } else {
      SameRenamed(s, t);
    }
  }

  lemma SubmitKeepsTmp(s: Slot, data: Data, active: bool, ok: bool)
    requires SlotOk(s) && (active || CanWriteNow(s))
    ensures TmpExact(Submit(s, data, active, ok)) && OneWriter(Submit(s, data, active, ok)) && NewestKept(Submit(s, data, active, ok))
  {
  }

  lemma SubmitKeepsReleased(s: Slot, data: Data, active: bool, ok: bool)
    requires OneWriter(s) && ReleasedOnce(s) && (active || CanWriteNow(s))
    ensures ReleasedOnce(Submit(s, data, active, ok))
  {
    var t := Submit(s, data, active, ok);
    assert AllIds(|t.sent|) == AllIds(|s.sent|) + multiset{|s.sent|};
  }

  /** A submission keeps everything, provided the pool is up or no buffer waits. */
  lemma SubmitKeeps(s: Slot, data: Data, active: bool, ok: bool)
    requires SlotOk(s) && (active || CanWriteNow(s))
    ensures SlotOk(Submit(s, data, active, ok))
  {
    SubmitKeepsHistory(s, data, active, ok);
    SubmitKeepsTmp(s, data, active, ok);
    SubmitKeepsReleased(s, data, active, ok);
  }

  lemma WorkKeeps(s: Slot, w: WorkerStep)
    requires SlotOk(s) && s.jobs != [] && CanWork(s.jobs[0], |s.sent[s.jobs[0].id]|, w)
    ensures SlotOk(Worked(s, w))
  {
    var t := Worked(s, w);
    var data := s.sent[s.jobs[0].id];
    assert t.jobs[1..] == [];
    if w.Chunk? {
      var k := s.jobs[0].stage.written;
      assert data[..k] + data[k..k + w.n] == data[..k + w.n];
    } else if w.Rename? && w.ok {
      assert data[..|data|] == data;
      AppendRenamed(s, t, s.jobs[0].id);
    }
  }

  lemma DoneKeepsHistory(s: Slot, active: bool, ok: bool)
    requires SlotOk(s) && s.jobs != [] && s.jobs[0].stage.Finished?
    ensures WholeInOrder(Done(s, active, ok)) && EndsWithRename(Done(s, active, ok))
  {
    var t := Done(s, active, ok);
    assert s.jobs[1..] == [];
    SameRenamed(s, s);
    if s.pending.Some? && !active && ok {
      AppendRenamed(s, t, s.pending.value);
    } else {
      SameRenamed(s, t);
    }
  }

  lemma DoneKeepsReleased(s: Slot, active: bool, ok: bool)
    requires SlotOk(s) && s.jobs != [] && s.jobs[0].stage.Finished?
    ensures ReleasedOnce(Done(s, active, ok))
  {
    var t, j := Done(s, active, ok), s.jobs[0];
    assert s.jobs[1..] == [] && |t.sent| == |s.sent|;
    if s.pending.Some? && !active {
      assert t.released == s.released + [s.pending.value] + [j.id] && HeldBuffers(t) == multiset{};
    } else {
      assert t.released == s.released + [j.id];
    }
  }

  lemma DoneKeeps(s: Slot, active: bool, ok: bool)
    requires SlotOk(s) && s.jobs != [] && s.jobs[0].stage.Finished?
    ensures SlotOk(Done(s, active, ok))
  {
    DoneKeepsHistory(s, active, ok);
    DoneKeepsReleased(s, active, ok);
    assert s.jobs[1..] == [];
  }

  // ------------------------------------------------------------- every run

  /** All paths, and whether the worker pool is up. */
  datatype Sys = Sys(active: bool, slots: map<string, Slot>)

  function At(s: Sys, path: string): Slot {
    if path in s.slots then s.slots[path] else FRESH
  }

  datatype Act =
    | CallWrite(path: string, data: Data, ok: bool)
    | Work(path: string, w: WorkerStep)
    | Complete(path: string, ok: bool)
    | Shutdown

  /** The pool shuts down only once its workers have finished; completions may still be due. */
  predicate Enabled(s: Sys, a: Act) {
    match a
    case CallWrite(_, _, _) => true
    case Work(p, w) =>
      var t := At(s, p);
      t.jobs != [] && t.jobs[0].id < |t.sent| && CanWork(t.jobs[0], |t.sent[t.jobs[0].id]|, w)
    case Complete(p, _) =>
      var t := At(s, p);
      t.jobs != [] && t.jobs[0].stage.Finished? && (t.pending.Some? ==> t.pending.value < |t.sent|)
    case Shutdown => forall p :: p in s.slots ==> WorkersDone(s.slots[p])
  }

  function Next(s: Sys, a: Act): Sys
    requires Enabled(s, a)
  {
    match a
    case CallWrite(p, data, ok) => s.(slots := s.slots[p := Submit(At(s, p), data, s.active, ok)])
    case Work(p, w) => s.(slots := s.slots[p := Worked(At(s, p), w)])
    case Complete(p, ok) => s.(slots := s.slots[p := Done(At(s, p), s.active, ok)])
    case Shutdown => s.(active := false)
  }

  /** No write is asked for while the pool is down and a buffer still waits for the path's completion. */
  predicate Orderly(s: Sys, a: Act) {
    a.CallWrite? ==> s.active || At(s, a.path).pending.None?
  }

  ghost predicate SysOk(s: Sys) {
    forall p :: p in s.slots ==> SlotOk(s.slots[p]) && (s.active || WorkersDone(s.slots[p]))
  }

  ghost predicate Legal(s: Sys, acts: seq<Act>)
    decreases |acts|
  {
    acts == [] || (Enabled(s, acts[0]) && Orderly(s, acts[0]) && Legal(Next(s, acts[0]), acts[1..]))
  }

  ghost function Outcome(s: Sys, acts: seq<Act>): Sys
    requires Legal(s, acts)
    decreases |acts|
  {
    if acts == [] then s else Outcome(Next(s, acts[0]), acts[1..])
  }

  lemma AtOk(s: Sys, p: string)
    requires SysOk(s)
    ensures SlotOk(At(s, p)) && (s.active || WorkersDone(At(s, p)))
  {
  }

  lemma CallKeeps(s: Sys, p: string, data: Data, ok: bool)
    requires SysOk(s) && Orderly(s, CallWrite(p, data, ok))
    ensures SlotOk(Submit(At(s, p), data, s.active, ok)) && (s.active || WorkersDone(Submit(At(s, p), data, s.active, ok)))
  {
    AtOk(s, p);
    SubmitKeeps(At(s, p), data, s.active, ok);
  }

  lemma WorkerKeeps(s: Sys, p: string, w: WorkerStep)
    requires SysOk(s) && Enabled(s, Work(p, w))
    ensures SlotOk(Worked(At(s, p), w)) && (s.active || WorkersDone(Worked(At(s, p), w)))
  {
    AtOk(s, p);
    WorkKeeps(At(s, p), w);
  }

  lemma CompleteKeeps(s: Sys, p: string, ok: bool)
    requires SysOk(s) && Enabled(s, Complete(p, ok))
    ensures SlotOk(Done(At(s, p), s.active, ok)) && (s.active || WorkersDone(Done(At(s, p), s.active, ok)))
  {
    AtOk(s, p);
    DoneKeeps(At(s, p), s.active, ok);
  }

  lemma OneSlotChanged(s: Sys, p: string, t: Slot)
    requires SysOk(s) && SlotOk(t) && (s.active || WorkersDone(t))
    ensures SysOk(s.(slots := s.slots[p := t]))
  {
    var slots := s.slots[p := t];
    forall q {:trigger slots[q]} | q in slots ensures SlotOk(slots[q]) && (s.active || WorkersDone(slots[q])) {
      if q != p { assert slots[q] == s.slots[q]; }
    }
  }

  lemma StepKeeps(s: Sys, a: Act)
    requires SysOk(s) && Enabled(s, a) && Orderly(s, a)
    ensures SysOk(Next(s, a))
  {
    match a
    case CallWrite(p, data, ok) =>
      CallKeeps(s, p, data, ok);
      OneSlotChanged(s, p, Submit(At(s, p), data, s.active, ok));
    case Work(p, w) =>
      WorkerKeeps(s, p, w);
      OneSlotChanged(s, p, Worked(At(s, p), w));
    case Complete(p, ok) =>
      CompleteKeeps(s, p, ok);
      OneSlotChanged(s, p, Done(At(s, p), s.active, ok));
    case Shutdown =>
  }

  /** Over every run, for every path: one write at a time, pending only behind one in flight, what is
      renamed onto the path are whole submissions in order, and every buffer is released once. */
  lemma {:induction false} RunKeeps(s: Sys, acts: seq<Act>)
    requires SysOk(s) && Legal(s, acts)
    ensures SysOk(Outcome(s, acts))
    decreases |acts|
  {
    if acts != [] {
      StepKeeps(s, acts[0]);
      RunKeeps(Next(s, acts[0]), acts[1..]);
    }
  }

  /** What the path holds. */
  function Content(s: Slot): Option<Data> {
    if s.renamed == [] then None else Some(s.renamed[|s.renamed| - 1].1)
  }

  lemma {:induction false} AllIdsOnce(n: nat, x: nat)
    ensures AllIds(n)[x] == if x < n then 1 else 0
  {
    if n > 0 { AllIdsOnce(n - 1, x); }
  }

  /** How often the buffer of a submission has been released. */
  ghost function Releases(s: Slot, id: nat): nat {
    multiset(s.released)[id]
  }

  lemma NeverTwice(s: Slot, id: nat)
    requires OneWriter(s) && ReleasedOnce(s)
    ensures Releases(s, id) <= if id < |s.sent| then 1 else 0
    ensures !s.inFlight && id < |s.sent| ==> Releases(s, id) == 1
  {
    AllIdsOnce(|s.sent|, id);
    assert (multiset(s.released) + HeldBuffers(s))[id] == AllIds(|s.sent|)[id];
  }

  /** No buffer was released twice, and once the path is idle every one has been released once. */
  ghost predicate EachReleasedOnce(s: Slot) {
    forall id: nat {:trigger Releases(s, id)} ::
      Releases(s, id) <= (if id < |s.sent| then 1 else 0) && (!s.inFlight && id < |s.sent| ==> Releases(s, id) == 1)
  }

  lemma AllReleasedOnce(s: Slot)
    requires OneWriter(s) && ReleasedOnce(s)
    ensures EachReleasedOnce(s)
  {
    forall id: nat ensures Releases(s, id) <= (if id < |s.sent| then 1 else 0)
                           && (!s.inFlight && id < |s.sent| ==> Releases(s, id) == 1) {
      NeverTwice(s, id);
    }
  }

  lemma LastIsNewest(s: Slot)
    requires SlotOk(s) && !s.inFlight && s.sent != [] && s.last.Some? && s.last.value.1
    ensures Content(s) == Some(s.sent[|s.sent| - 1])
  {
  }

  /** Over every run: an idle path whose last write succeeded holds the last submission, all others
      having been renamed before it or dropped, and each buffer is released exactly once. */
  lemma IdleHoldsLatest(acts: seq<Act>, path: string)
    requires Legal(Sys(true, map[]), acts)
    ensures var s := At(Outcome(Sys(true, map[]), acts), path);
            && SlotOk(s) && EachReleasedOnce(s)
            && (!s.inFlight && s.sent != [] && s.last.Some? && s.last.value.1 ==> Content(s) == Some(s.sent[|s.sent| - 1]))
  {
    RunKeeps(Sys(true, map[]), acts);
    var s := At(Outcome(Sys(true, map[]), acts), path);
    AtOk(Outcome(Sys(true, map[]), acts), path);
    AllReleasedOnce(s);
    if !s.inFlight && s.sent != [] && s.last.Some? && s.last.value.1 { LastIsNewest(s); }
  }

  /** The guard is exact.  The pool is down and a finished write's completion is due; a write asked
      for now is done on the spot.  The path's history stays in order through that completion if and
      only if no buffer was waiting; otherwise the older waiting buffer ends up on the path. */
  lemma LateWriteInOrderIff(s: Slot, data: Data)
    requires SlotOk(s) && s.inFlight && s.jobs[0].stage.Finished?
    ensures var late := Submit(s, data, false, true);
            && (WholeInOrder(Done(late, false, true)) <==> s.pending.None?)
            && Content(late) == Some(data)
            && Content(Done(late, false, true)) == Some(if s.pending.None? then data else s.sent[s.pending.value])
  {
    var late := Submit(s, data, false, true);
    var t := Done(late, false, true);
    if s.pending.None? {
      SubmitKeeps(s, data, false, true);
      DoneKeeps(late, false, true);
    } else {
      assert late.renamed == s.renamed + [(|s.sent|, data)];
      assert t.renamed == late.renamed + [(s.pending.value, s.sent[s.pending.value])];
      var n := |t.renamed|;
      assert t.renamed[n - 2].0 > t.renamed[n - 1].0;
    }
  }

  // ------------------------------------------------------------- the worker's loop

  /** What one write() answers. */
  datatype Answer = Wrote(n: nat) | Interrupted | Failed

  /** How a loop ends that has `left` bytes to write: an interrupted call is repeated, a short one
      continued, a failed one ends it; None when the answers run out. */
  function Ends(left: nat, answers: seq<Answer>): Option<bool>
    decreases |answers|
  {
    if left == 0 then Some(true)
    else if answers == [] then None
    else
      match answers[0]
      case Interrupted => Ends(left, answers[1..])
      case Failed => Some(false)
      case Wrote(n) => Ends(if n <= left then left - n else 0, answers[1..])
  }

  /** Enough short writes get every buffer out, however often they are interrupted. */
  lemma {:induction false} WritesGetThrough(left: nat, answers: seq<Answer>)
    requires Failed !in answers && left <= Written(answers)
    ensures Ends(left, answers) == Some(true)
    decreases |answers|
  {
    if left > 0 && answers != [] {
      match answers[0]
      case Interrupted => WritesGetThrough(left, answers[1..]);
      case Wrote(n) => WritesGetThrough(if n <= left then left - n else 0, answers[1..]);
    }
  }

  function Written(answers: seq<Answer>): nat {
    if answers == [] then 0 else (if answers[0].Wrote? then answers[0].n else 0) + Written(answers[1..])
  }

  /** The answers before number i are no failures and have not taken everything. */
  ghost predicate StillAt(left: nat, answers: seq<Answer>, i: nat) {
    i <= |answers| && Failed !in answers[..i] && Written(answers[..i]) < left
  }

  lemma StillTail(left: nat, answers: seq<Answer>, i: nat)
    requires 0 < i <= |answers| && left > 0
    ensures StillAt(left, answers, i) <==>
              match answers[0]
              case Failed => false
              case Interrupted => StillAt(left, answers[1..], i - 1)
              case Wrote(n) => n < left && StillAt(left - n, answers[1..], i - 1)
  {
    assert answers[..i] == [answers[0]] + answers[1..][..i - 1];
    assert answers[..i][1..] == answers[1..][..i - 1];
  }

  /** The loop fails exactly when a failure comes before enough was written, and is not over exactly when
      the answers run out before that. */
  lemma {:induction false} EndsIff(left: nat, answers: seq<Answer>)
    ensures Ends(left, answers) == Some(false) <==> exists i :: 0 <= i < |answers| && answers[i] == Failed && StillAt(left, answers, i)
    ensures Ends(left, answers) == None <==> StillAt(left, answers, |answers|)
    decreases |answers|
  {
    if left == 0 {
    } else if answers == [] {
      assert StillAt(left, answers, 0);
    } else {
      var a, rest := answers[0], answers[1..];
      StillTail(left, answers, |answers|);
      forall i | 0 < i < |answers| ensures answers[i] == rest[i - 1] { StillTail(left, answers, i); }
      assert answers[..0] == [] && StillAt(left, answers, 0);
      var left' := if a.Wrote? then (if a.n <= left then left - a.n else 0) else left;
      EndsIff(left', rest);
      FirstFailure(left, answers);
    }
  }

  lemma FirstFailure(left: nat, answers: seq<Answer>)
    requires left > 0 && answers != []
    ensures var left' := if answers[0].Wrote? then (if answers[0].n <= left then left - answers[0].n else 0) else left;
            (exists i :: 0 <= i < |answers| && answers[i] == Failed && StillAt(left, answers, i)) <==>
            (answers[0] == Failed
             || exists i :: 0 <= i < |answers[1..]| && answers[1..][i] == Failed && StillAt(left', answers[1..], i))
  {
    var rest := answers[1..];
    var left' := if answers[0].Wrote? then (if answers[0].n <= left then left - answers[0].n else 0) else left;
    assert answers[..0] == [] && StillAt(left, answers, 0);
    if i :| 0 < i < |answers| && answers[i] == Failed && StillAt(left, answers, i) {
      StillTail(left, answers, i);
      assert rest[i - 1] == Failed && StillAt(left', rest, i - 1);
    }
    if i :| 0 <= i < |rest| && rest[i] == Failed && StillAt(left', rest, i) {
      StillTail(left, answers, i + 1);
      assert answers[i + 1] == Failed;
    }
  }

  /** Writes a buffer to a temporary file and renames it: `answers` are those of the successive
      write() calls.  The result is 0 exactly when the path was replaced, and then by the whole
      buffer; None when the answers run out before the loop ends. */
  method AwriteWork(buf: Data, opens: bool, answers: seq<Answer>, renames: bool)
    returns (result: Option<int>, tmp: Data, placed: Option<Data>)
    ensures result == if !opens then Some(-1)
                      else match Ends(|buf|, answers)
                        case None => None
                        case Some(false) => Some(-2)
                        case Some(true) => Some(if renames then 0 else -3)
    ensures placed == if result == Some(0) then Some(buf) else None
    ensures result.Some? ==> tmp == []
    ensures result.None? ==> tmp <= buf && tmp != buf
  {
    tmp, placed := [], None;
    if !opens {
      return Some(-1), [], None;
    }
    var written: nat := 0;
    var i: nat := 0;
    assert answers[0..] == answers;
    while written < |buf|
      invariant written <= |buf| && i <= |answers| && tmp == buf[..written]
      invariant Ends(|buf| - written, answers[i..]) == Ends(|buf|, answers)
      decreases |answers| - i
    {
      if i == |answers| {
        return None, tmp, None;
      }
      var answer := answers[i];
      assert answers[i..][0] == answer && answers[i..][1..] == answers[i + 1..];
      i := i + 1;
      match answer {
        case Interrupted =>
        case Failed => return Some(-2), [], None;
        case Wrote(n) =>
          var m := if n <= |buf| - written then n else |buf| - written;
          assert buf[..written] + buf[written..written + m] == buf[..written + m];
          tmp := tmp + buf[written..written + m];
          written := written + m;
      }
    }
    if !renames {
      return Some(-3), [], None;
    }
    assert tmp == buf;
    return Some(0), [], Some(tmp);
  }

  // ------------------------------------------------------------- the main thread's code

  class FileWriter {
    var active: bool
    var slots: map<string, Slot>

    ghost function State(): Sys
      reads this
    {
      Sys(active, slots)
    }

    constructor ()
      ensures active && slots == map[]
    {
      active, slots := true, map[];
    }

    /** Finds or creates the slot of a path. */
    method CoalesceGet(path: string)
      modifies `slots
      ensures slots == old(slots)[path := At(old(State()), path)]
    {
      if path !in slots {
        slots := slots[path := FRESH];
      }
    }

    /** Hands a known submission over; `ok` is how a write done on the spot ends. */
    method AsyncWritebuf(path: string, id: nat, ok: bool)
      requires path in slots && id < |slots[path].sent|
      modifies `slots
      ensures slots == old(slots)[path := Launch(old(slots)[path], id, active, ok)]
    {
      var s := slots[path];
      if !active {
        if ok {
          s := s.(renamed := s.renamed + [(id, s.sent[id])]);
        }
        s := s.(released := s.released + [id], last := Newest(s.last, id, ok));
      } else if s.inFlight {
        if s.pending.Some? {
          s := s.(released := s.released + [s.pending.value]);
        }
        s := s.(pending := Some(id));
      } else {
        s := s.(inFlight := true);
        s := s.(jobs := s.jobs + [Job(id, Waiting, [])]);
      }
      slots := slots[path := s];
    }

    /** A new buffer for a path. */
    method Write(path: string, data: Data, ok: bool)
      modifies `slots
      ensures State() == Next(old(State()), CallWrite(path, data, ok))
    {
      CoalesceGet(path);
      var id := |slots[path].sent|;
      slots := slots[path := slots[path].(sent := slots[path].sent + [data])];
      AsyncWritebuf(path, id, ok);
    }

    /** The completion of the path's write. */
    method AwriteDone(path: string, ok: bool)
      requires path in slots && Enabled(State(), Complete(path, ok))
      modifies `slots
      ensures State() == Next(old(State()), Complete(path, ok))
    {
      CoalesceGet(path);
      var j := slots[path].jobs[0];
      var last := Newest(slots[path].last, j.id, j.stage.ok);
      slots := slots[path := slots[path].(inFlight := false, jobs := slots[path].jobs[1..], last := last)];
      if slots[path].pending.Some? {
        var p := slots[path].pending.value;
        slots := slots[path := slots[path].(pending := None)];
        AsyncWritebuf(path, p, ok);
      }
      slots := slots[path := slots[path].(released := slots[path].released + [j.id])];
    }
  }
}
