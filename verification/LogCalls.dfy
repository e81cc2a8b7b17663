/** The main thread's calls, some of which find no memory for their command, and what becomes of their lines. */
module LogCalls {
  import opened Wrappers
  import opened LogFiles
  import opened AsyncLog

  /** A call of the main thread; `queued` says whether there was memory for its command. */
  datatype Call = Call(cmd: Cmd, queued: bool)

  ghost function QueuedCmds(calls: seq<Call>): seq<Cmd> {
    if calls == [] then []
    else QueuedCmds(calls[..|calls| - 1]) + if calls[|calls| - 1].queued then [calls[|calls| - 1].cmd] else []
  }

  /** The lines the calls were made with, whether queued or dropped. */
  ghost function CallLines(calls: seq<Call>, i: int): seq<string> {
    if calls == [] then []
    else
      var rest := CallLines(calls[..|calls| - 1], i);
      match calls[|calls| - 1].cmd
      case Write(j, _, line, _) => if j == i then rest + [line] else rest
      case _ => rest
  }

  ghost predicate WritesQueued(calls: seq<Call>, i: int) {
    forall k :: 0 <= k < |calls| && calls[k].cmd.Write? && calls[k].cmd.slot == i ==> calls[k].queued
  }

  lemma {:induction false} QueuedConcat(a: seq<Call>, b: seq<Call>)
    ensures QueuedCmds(a + b) == QueuedCmds(a) + QueuedCmds(b)
  {
    if b == [] {
      assert a + b == a;
    } else {
      assert (a + b)[..|a + b| - 1] == a + b[..|b| - 1];
      QueuedConcat(a, b[..|b| - 1]);
    }
  }

  lemma {:induction false} DroppedLinesMissing(calls: seq<Call>, i: int)
    ensures if WritesQueued(calls, i) then LinesFor(QueuedCmds(calls), i) == CallLines(calls, i)
            else |LinesFor(QueuedCmds(calls), i)| < |CallLines(calls, i)|
  {
    if calls != [] {
      var p, z := calls[..|calls| - 1], calls[|calls| - 1];
      DroppedLinesMissing(p, i);
      assert calls == p + [z];
      assert WritesQueued(calls, i) <==> WritesQueued(p, i) && (z.cmd.Write? && z.cmd.slot == i ==> z.queued);
      if z.queued {
        SnocCmds(QueuedCmds(p), z.cmd, i);
      } else {
        assert QueuedCmds(calls) == QueuedCmds(p);
      }
    }
  }

  /** The calls of one log line after repeats: the notice with the path, the line itself without. */
  ghost function NoticeAndLine(i: int, path: string, notice: string, line: string, first: bool, second: bool, opens: bool): seq<Call> {
    [Call(Write(i, Given(Some(path)), notice, true), first), Call(Write(i, Absent, line, opens), second)]
  }

  lemma QueuedPair(calls: seq<Call>, a: Call, b: Call, i: int)
    ensures QueuedCmds(calls + [a, b]) ==
              QueuedCmds(calls) + (if a.queued then [a.cmd] else []) + (if b.queued then [b.cmd] else [])
  {
    assert calls + [a, b] == (calls + [a]) + [b];
    assert (calls + [a, b])[..|calls| + 1] == calls + [a];
    assert (calls + [a])[..|calls|] == calls;
  }

  /** The second call counts on the first: on a slot not recorded open its line arrives if and only if
      both commands were queued, though every path given was copied and opened.  The record then stays
      as it was, so that the next call passes the path again. */
  lemma NoticeDroppedLosesLine(n: nat, calls: seq<Call>, i: nat, path: string, notice: string, line: string,
                               first: bool, second: bool, opens: bool)
    requires i < n && OpensSucceed(QueuedCmds(calls), i) && !Told(QueuedCmds(calls), i)
    ensures var cmds := QueuedCmds(calls + NoticeAndLine(i, path, notice, line, first, second, opens));
            && Texts(Run(Blank(n), cmds)[i].lines) == Texts(Run(Blank(n), QueuedCmds(calls))[i].lines)
                 + (if first then [notice] else []) + (if first && second then [line] else [])
            && (Told(cmds, i) <==> first)
  {
    var a, b := Write(i, Given(Some(path)), notice, true), Write(i, Absent, line, opens);
    var c0 := QueuedCmds(calls);
    QueuedPair(calls, Call(a, first), Call(b, second), i);
    var c1 := if first then c0 + [a] else c0;
    var c2 := if second then c1 + [b] else c1;
    assert QueuedCmds(calls + NoticeAndLine(i, path, notice, line, first, second, opens)) == c2;
    SnocCmds(c0, a, i);
    SnocCmds(c1, b, i);
    OpenAsTold(n, c0, i);
    OpenAsTold(n, c1, i);
    if first || !second {
      OpenAsTold(n, c2, i);
    } else {
      RunSnoc(Blank(n), c1, b);
    }
  }

  // ------------------------------------------------------------- the calls of a run

  ghost function CallsOf(a: Act): seq<Call> {
    match a
    case CallWrite(i, path, line, opens, ok) => [Call(Write(i, path, line, opens), ok)]
    case CallClose(i, ok) => [Call(Close(i), ok)]
    case _ => []
  }

  /** The write and close calls of a run, in order. */
  ghost function Made(acts: seq<Act>): seq<Call> {
    if acts == [] then [] else CallsOf(acts[0]) + Made(acts[1..])
  }

  ghost predicate ForFiles(c: Cmd) {
    c.Write? || c.Close?
  }

  ghost function FileCmds(cmds: seq<Cmd>): seq<Cmd> {
    if cmds == [] then []
    else FileCmds(cmds[..|cmds| - 1]) + if ForFiles(cmds[|cmds| - 1]) then [cmds[|cmds| - 1]] else []
  }

  /** The command of a call that has not pushed it yet. */
  ghost function Pending(m: MainPc): seq<Cmd> {
    if Pushing(m) && ForFiles(m.c) then [m.c] else []
  }

  lemma PushQueues(s: State, ok: bool)
    requires s.main.CasHead?
    ensures FileCmds(MainNext(s, ok).sent) + Pending(MainNext(s, ok).main) == FileCmds(s.sent) + Pending(s.main)
  {
    assert (s.sent + [s.main.c])[..|s.sent|] == s.sent;
  }

  lemma MainQueues(s: State, ok: bool)
    requires !MainBlocked(s) && !s.main.CasHead?
    ensures MainNext(s, ok).sent == s.sent && Pending(MainNext(s, ok).main) == Pending(s.main)
  {
  }

  lemma StepQueues(s: State, a: Act)
    requires Enabled(s, a)
    ensures FileCmds(Next(s, a).sent) + Pending(Next(s, a).main) == FileCmds(s.sent) + Pending(s.main) + QueuedCmds(CallsOf(a))
  {
    if a.MainStep? {
      if s.main.CasHead? { PushQueues(s, a.ok); } else { MainQueues(s, a.ok); }
    } else {
      assert Next(s, a).sent == s.sent;
      if CallsOf(a) != [] { assert CallsOf(a)[..0] == []; }
    }
  }

  lemma {:induction false} RunQueues(s: State, acts: seq<Act>)
    requires Legal(s, acts)
    ensures var z := Outcome(s, acts);
            FileCmds(z.sent) + Pending(z.main) == FileCmds(s.sent) + Pending(s.main) + QueuedCmds(Made(acts))
    decreases |acts|
  {
    if acts != [] {
      StepQueues(s, acts[0]);
      RunQueues(Next(s, acts[0]), acts[1..]);
      QueuedConcat(CallsOf(acts[0]), Made(acts[1..]));
    }
  }

  /** Flushes and sentinels are no part of what happens to a slot's lines. */
  lemma {:induction false} FileCmdsDecide(cmds: seq<Cmd>, i: int)
    ensures LinesFor(FileCmds(cmds), i) == LinesFor(cmds, i)
    ensures Told(FileCmds(cmds), i) == Told(cmds, i) && OpensSucceed(FileCmds(cmds), i) == OpensSucceed(cmds, i)
  {
    if cmds != [] {
      var p, c := cmds[..|cmds| - 1], cmds[|cmds| - 1];
      FileCmdsDecide(p, i);
      assert cmds == p + [c];
      SnocCmds(p, c, i);
      if ForFiles(c) {
        SnocCmds(FileCmds(p), c, i);
      } else {
        assert FileCmds(cmds) == FileCmds(p);
      }
    }
  }

  /** What has been written for slot i. */
  ghost function Written(s: State, i: nat): seq<string> {
    if i < |s.slots| then Texts(s.slots[i].lines) else []
  }

  lemma AllWritten(z: State, n: nat, i: nat)
    requires Reachable(z, n) && z.done == z.sent && i < n
    ensures Written(z, i) == Texts(Run(Blank(n), z.sent)[i].lines)
  {
    SameAsSynchronous(z, n);
    if z.writer.Exited? { assert z.slots[i] == Closed(Run(Blank(n), z.sent)[i]); }
  }

  lemma SentDecides(n: nat, sent: seq<Cmd>, calls: seq<Call>, i: nat)
    requires i < n && FileCmds(sent) == QueuedCmds(calls)
    ensures Texts(Run(Blank(n), sent)[i].lines) == CallLines(calls, i) <==> WritesQueued(calls, i) && OpensSucceed(QueuedCmds(calls), i)
  {
    FileCmdsDecide(sent, i);
    NoLineSkipped(n, sent, i);
    LinesBounded(n, sent, i);
    DroppedLinesMissing(calls, i);
  }

  /** However the two threads take turns: once every command sent is executed, every line that slot i was
      called with is in its file, in order, if and only if the command of each of its writes was queued,
      and each that found the slot not recorded open came with a path that could be copied and opened. */
  lemma EveryLineArrivesIff(n: nat, acts: seq<Act>, i: nat)
    requires i < n && Legal(Init(n), acts)
    requires Outcome(Init(n), acts).done == Outcome(Init(n), acts).sent && !Pushing(Outcome(Init(n), acts).main)
    ensures Written(Outcome(Init(n), acts), i) == CallLines(Made(acts), i)
            <==> WritesQueued(Made(acts), i) && OpensSucceed(QueuedCmds(Made(acts)), i)
  {
    var z := Outcome(Init(n), acts);
    RunQueues(Init(n), acts);
    assert FileCmds(z.sent) == FileCmds(z.sent) + Pending(z.main) == [] + [] + QueuedCmds(Made(acts));
    AllWritten(z, n, i);
    SentDecides(n, z.sent, Made(acts), i);
  }

  /** So it is right after every flush whose command was allocated. */
  lemma AfterFlushIff(n: nat, acts: seq<Act>, a: Act, i: nat)
    requires i < n && Legal(Init(n), acts) && FlushReturns(Outcome(Init(n), acts), a, true)
    ensures Legal(Init(n), acts + [a])
    ensures Written(Outcome(Init(n), acts + [a]), i) == CallLines(Made(acts + [a]), i)
            <==> WritesQueued(Made(acts + [a]), i) && OpensSucceed(QueuedCmds(Made(acts + [a])), i)
  {
    assert Reachable(Outcome(Init(n), acts), n);
    AllocatedFlush(Outcome(Init(n), acts), n, a);
    LegalSnoc(Init(n), acts, a);
    EveryLineArrivesIff(n, acts + [a], i);
  }
}
