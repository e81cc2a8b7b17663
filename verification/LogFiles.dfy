/** What the log writer does to its files: one command at a time, in order. */
module LogFiles {
  import opened Wrappers

  /** What a caller passes as path: nothing, or a path of which a copy is made if there is memory. */
  datatype Path = Absent | Given(copy: Option<string>)

  /** The path a queued command holds. */
  ghost function Copied(p: Path): Option<string> {
    match p
    case Absent => None
    case Given(copy) => copy
  }

  /** A queued command.  For a write, `opens` is what fopen answers should it be called. */
  datatype Cmd =
    | Write(slot: int, path: Path, line: string, opens: bool)
    | Close(slot: int)
    | Flush
    | Stop

  /** One slot: the file it has open, the lines handed to stdio with the file they went to,
      and how many of these are certain to have left the buffer. */
  datatype Slot = Slot(file: Option<string>, lines: seq<(string, string)>, synced: nat)

  ghost predicate InRange(slots: seq<Slot>, i: int) {
    0 <= i < |slots|
  }

  /** Opens the file if it is not open and a path came along. */
  ghost function OpenFor(s: Slot, path: Option<string>, opens: bool): Slot {
    if s.file.None? && path.Some? && opens then s.(file := path) else s
  }

  ghost function Put(s: Slot, line: string): Slot {
    if s.file.Some? then s.(lines := s.lines + [(s.file.value, line)]) else s
  }

  ghost function Synced(s: Slot): Slot {
    if s.file.Some? then s.(synced := |s.lines|) else s
  }

  ghost function Closed(s: Slot): Slot {
    Synced(s).(file := None)
  }

  ghost function SyncAll(slots: seq<Slot>): seq<Slot> {
    seq(|slots|, i requires 0 <= i < |slots| => Synced(slots[i]))
  }

  ghost function CloseAll(slots: seq<Slot>): seq<Slot> {
    seq(|slots|, i requires 0 <= i < |slots| => Closed(slots[i]))
  }

  /** The synchronous meaning of one command. */
  ghost function Exec(slots: seq<Slot>, c: Cmd): (r: seq<Slot>)
    ensures |r| == |slots|
  {
    match c
    case Write(i, path, line, opens) =>
      if InRange(slots, i) then slots[i := Put(OpenFor(slots[i], Copied(path), opens), line)] else slots
    case Close(i) => if InRange(slots, i) then slots[i := Closed(slots[i])] else slots
    case Flush => SyncAll(slots)
    case Stop => slots
  }

  /** Running a whole command sequence synchronously. */
  ghost function Run(slots: seq<Slot>, cmds: seq<Cmd>): (r: seq<Slot>)
    ensures |r| == |slots|
  {
    if cmds == [] then slots else Exec(Run(slots, cmds[..|cmds| - 1]), cmds[|cmds| - 1])
  }

  ghost function Blank(n: nat): seq<Slot> {
    seq(n, _ => Slot(None, [], 0))
  }

  lemma RunSnoc(slots: seq<Slot>, cmds: seq<Cmd>, c: Cmd)
    ensures Run(slots, cmds + [c]) == Exec(Run(slots, cmds), c)
  {
    assert (cmds + [c])[..|cmds|] == cmds;
  }

  /** A closed file keeps nothing in its buffer. */
  ghost predicate ClosedSynced(slots: seq<Slot>) {
    forall i :: 0 <= i < |slots| ==> slots[i].synced <= |slots[i].lines| && (slots[i].file.None? ==> slots[i].synced == |slots[i].lines|)
  }

  lemma {:induction false} RunClosedSynced(n: nat, cmds: seq<Cmd>)
    ensures ClosedSynced(Run(Blank(n), cmds))
  {
    if cmds != [] {
      RunClosedSynced(n, cmds[..|cmds| - 1]);
    }
  }

  ghost predicate AllSynced(slots: seq<Slot>) {
    forall i :: 0 <= i < |slots| ==> slots[i].synced == |slots[i].lines|
  }

  /** A flush at the end leaves nothing in any buffer. */
  lemma FlushSyncs(n: nat, cmds: seq<Cmd>)
    requires cmds != [] && cmds[|cmds| - 1].Flush?
    ensures AllSynced(Run(Blank(n), cmds))
  {
    var before := Run(Blank(n), cmds[..|cmds| - 1]);
    RunClosedSynced(n, cmds[..|cmds| - 1]);
    SyncedAll(before);
  }

  lemma SyncedAll(slots: seq<Slot>)
    requires ClosedSynced(slots)
    ensures AllSynced(SyncAll(slots))
  {
  }

  // ------------------------------------------------------------- no line is skipped

  /** The main thread's own record of which slots it believes to be open. */
  ghost function Told(cmds: seq<Cmd>, i: int): bool {
    if cmds == [] then false
    else match cmds[|cmds| - 1]
      case Write(j, path, _, _) => if j == i && path.Given? then true else Told(cmds[..|cmds| - 1], i)
      case Close(j) => if j == i then false else Told(cmds[..|cmds| - 1], i)
      case _ => Told(cmds[..|cmds| - 1], i)
  }

  /** Every write to slot i that found it not recorded open came with a path that could be copied
      and whose file could be opened. */
  ghost predicate OpensSucceed(cmds: seq<Cmd>, i: int) {
    cmds == [] ||
    (OpensSucceed(cmds[..|cmds| - 1], i) &&
     var c := cmds[|cmds| - 1];
     c.Write? && c.slot == i && !Told(cmds[..|cmds| - 1], i) ==> Copied(c.path).Some? && c.opens)
  }

  /** The lines written to slot i, in order of submission. */
  ghost function LinesFor(cmds: seq<Cmd>, i: int): seq<string> {
    if cmds == [] then []
    else
      var rest := LinesFor(cmds[..|cmds| - 1], i);
      match cmds[|cmds| - 1]
      case Write(j, _, line, _) => if j == i then rest + [line] else rest
      case _ => rest
  }

  lemma SnocCmds(cmds: seq<Cmd>, c: Cmd, i: int)
    ensures LinesFor(cmds + [c], i) == LinesFor(cmds, i) + if c.Write? && c.slot == i then [c.line] else []
    ensures Told(cmds + [c], i) <==> (c.Write? && c.slot == i && c.path.Given?) || (Told(cmds, i) && !(c.Close? && c.slot == i))
    ensures OpensSucceed(cmds + [c], i) <==>
              OpensSucceed(cmds, i) && (c.Write? && c.slot == i && !Told(cmds, i) ==> Copied(c.path).Some? && c.opens)
  {
    assert (cmds + [c])[..|cmds|] == cmds;
  }

  ghost function Texts(s: seq<(string, string)>): seq<string> {
    seq(|s|, i requires 0 <= i < |s| => s[i].1)
  }

  lemma TextsSnoc(s: seq<(string, string)>, x: (string, string))
    ensures Texts(s + [x]) == Texts(s) + [x.1]
  {
  }

  lemma {:induction false} LinesBounded(n: nat, cmds: seq<Cmd>, i: nat)
    requires i < n
    ensures |Run(Blank(n), cmds)[i].lines| <= |LinesFor(cmds, i)|
  {
    if cmds != [] {
      LinesBounded(n, cmds[..|cmds| - 1], i);
    }
  }

  lemma {:induction false} OpenAsTold(n: nat, cmds: seq<Cmd>, i: nat)
    requires i < n && OpensSucceed(cmds, i)
    ensures Texts(Run(Blank(n), cmds)[i].lines) == LinesFor(cmds, i)
    ensures Run(Blank(n), cmds)[i].file.Some? <==> Told(cmds, i)
  {
    if cmds != [] {
      var p, c := cmds[..|cmds| - 1], cmds[|cmds| - 1];
      OpenAsTold(n, p, i);
      var before := Run(Blank(n), p)[i];
      if c.Write? && c.slot == i {
        var s := OpenFor(before, Copied(c.path), c.opens);
        TextsSnoc(s.lines, (s.file.value, c.line));
      }
    }
  }

  lemma {:induction false} FailedOpenLoses(n: nat, cmds: seq<Cmd>, i: nat)
    requires i < n && !OpensSucceed(cmds, i)
    ensures |Run(Blank(n), cmds)[i].lines| < |LinesFor(cmds, i)|
  {
    var p, c := cmds[..|cmds| - 1], cmds[|cmds| - 1];
    if !OpensSucceed(p, i) {
      FailedOpenLoses(n, p, i);
    } else {
      OpenAsTold(n, p, i);
      LinesBounded(n, p, i);
      assert c.Write? && c.slot == i && !Told(p, i) && !(Copied(c.path).Some? && c.opens);
    }
  }

  /** Of the commands that are queued, every line of a slot reaches its file in order if and only if every
      write that found the slot not recorded open came with a path that could be copied and opened. */
  lemma NoLineSkipped(n: nat, cmds: seq<Cmd>, i: nat)
    requires i < n
    ensures Texts(Run(Blank(n), cmds)[i].lines) == LinesFor(cmds, i) <==> OpensSucceed(cmds, i)
  {
    if OpensSucceed(cmds, i) {
      OpenAsTold(n, cmds, i);
    } else {
      FailedOpenLoses(n, cmds, i);
    }
  }

  /** The copy of the path matters: when it cannot be made, the slot is recorded open all
      the same, and this line and the next one are lost although the caller did its part. */
  lemma LostCopySkipsLines()
    ensures var cmds := [Write(0, Given(None), "a", true), Write(0, Absent, "b", true)];
            && (forall k :: 0 <= k < |cmds| && !Told(cmds[..k], 0) ==> cmds[k].path.Given?)
            && Run(Blank(1), cmds)[0].lines == [] && LinesFor(cmds, 0) == ["a", "b"]
  {
    var a, b := Write(0, Given(None), "a", true), Write(0, Absent, "b", true);
    assert [a, b][..1] == [a] && [a][..0] == [];
    assert [a, b][..0] == [];
    assert Run(Blank(1), []) == Blank(1);
    assert Run(Blank(1), [a]) == Exec(Blank(1), a);
    assert Run(Blank(1), [a, b]) == Exec(Run(Blank(1), [a]), b);
    assert Told([a], 0);
    assert LinesFor([a], 0) == ["a"];
  }
}
