/** Which file a log line goes to, told from the commands alone. */
module LogPlaces {
  import opened Wrappers
  import opened LogFiles
  import opened AsyncLog

  /** A write that would open its slot: its path was given and copied, and fopen succeeds. */
  ghost predicate Opening(c: Cmd, i: nat) {
    c.Write? && c.slot == i && c.path.Given? && c.path.copy.Some? && c.opens
  }

  /** Command k found slot i closed: behind every earlier opening write the slot was closed again. */
  ghost predicate Opener(cmds: seq<Cmd>, i: nat, k: int) {
    && 0 <= k < |cmds| && Opening(cmds[k], i)
    && forall j :: 0 <= j < k && Opening(cmds[j], i) ==> exists l :: j < l < k && cmds[l] == Close(i)
  }

  /** Command k opened slot i, which has not been closed up to command m. */
  ghost predicate OpenAt(cmds: seq<Cmd>, i: nat, k: int, m: int) {
    0 <= k <= m < |cmds| && Opener(cmds, i, k) && forall l :: k < l <= m ==> cmds[l] != Close(i)
  }

  /** Command k opened slot i, which is still open behind the last command. */
  ghost predicate OpenNow(cmds: seq<Cmd>, i: nat, k: int) {
    OpenAt(cmds, i, k, |cmds| - 1)
  }

  lemma OpenerPrefix(p: seq<Cmd>, c: Cmd, i: nat, k: int)
    requires 0 <= k < |p|
    ensures Opener(p + [c], i, k) <==> Opener(p, i, k)
  {
    var q := p + [c];
    if Opener(p, i, k) {
      forall j | 0 <= j < k && Opening(q[j], i) ensures exists l :: j < l < k && q[l] == Close(i) {
        assert Opening(p[j], i);
        var l :| j < l < k && p[l] == Close(i);
        assert q[l] == Close(i);
      }
    }
    if Opener(q, i, k) {
      forall j | 0 <= j < k && Opening(p[j], i) ensures exists l :: j < l < k && p[l] == Close(i) {
        assert Opening(q[j], i);
        var l :| j < l < k && q[l] == Close(i);
        assert p[l] == Close(i);
      }
    }
  }

  lemma OpenAtPrefix(p: seq<Cmd>, c: Cmd, i: nat, k: int, m: int)
    requires m < |p|
    ensures OpenAt(p + [c], i, k, m) <==> OpenAt(p, i, k, m)
  {
    if 0 <= k <= m {
      OpenerPrefix(p, c, i, k);
      assert forall l :: k < l <= m ==> (p + [c])[l] == p[l];
    }
  }

  lemma OpenAtEnd(p: seq<Cmd>, c: Cmd, i: nat, k: int)
    requires 0 <= k < |p|
    ensures OpenNow(p + [c], i, k) <==> OpenNow(p, i, k) && c != Close(i)
  {
    OpenerPrefix(p, c, i, k);
    var q := p + [c];
    if OpenNow(q, i, k) {
      assert q[|p|] == c;
      forall l | k < l <= |p| - 1 ensures p[l] != Close(i) { assert q[l] == p[l]; }
    }
  }

  /** Where an opening write is followed by no close, some write has the slot open. */
  lemma {:induction false} SomeoneOpened(cmds: seq<Cmd>, i: nat, j: nat)
    requires j < |cmds| && Opening(cmds[j], i) && forall l :: j < l < |cmds| ==> cmds[l] != Close(i)
    ensures exists k :: OpenNow(cmds, i, k)
  {
    if Opener(cmds, i, j) {
      assert OpenNow(cmds, i, j);
    } else {
      var h :| 0 <= h < j && Opening(cmds[h], i) && !exists l :: h < l < j && cmds[l] == Close(i);
      forall l | h < l < |cmds| ensures cmds[l] != Close(i) { }
      SomeoneOpened(cmds, i, h);
    }
  }

  /** A write behind a closed slot opens it if it can. */
  lemma OpensNow(p: seq<Cmd>, c: Cmd, i: nat)
    requires Opening(c, i)
    ensures OpenNow(p + [c], i, |p|) <==> !exists k :: OpenNow(p, i, k)
  {
    var q := p + [c];
    if k :| OpenNow(p, i, k) {
      assert Opening(q[k], i);
    } else {
      forall j | 0 <= j < |p| && Opening(q[j], i) ensures exists l :: j < l < |p| && q[l] == Close(i) {
        if forall l :: j < l < |p| ==> p[l] != Close(i) { SomeoneOpened(p, i, j); }
        var l :| j < l < |p| && p[l] == Close(i);
        assert q[l] == Close(i);
      }
    }
  }

  /** The open file is the path of the write that opened it. */
  ghost predicate FileIs(file: Option<string>, cmds: seq<Cmd>, i: nat) {
    && (forall k :: OpenNow(cmds, i, k) ==> file == cmds[k].path.copy)
    && (file.Some? ==> exists k :: OpenNow(cmds, i, k))
  }

  lemma FileAfterOther(file: Option<string>, p: seq<Cmd>, c: Cmd, i: nat)
    requires FileIs(file, p, i) && c != Close(i) && !(Opening(c, i) && file.None?)
    ensures FileIs(file, p + [c], i)
  {
    var q := p + [c];
    forall k | OpenNow(q, i, k) ensures file == q[k].path.copy {
      if k < |p| {
        OpenAtEnd(p, c, i, k);
      } else {
        OpensNow(p, c, i);
      }
    }
    if file.Some? {
      var k :| OpenNow(p, i, k);
      OpenAtEnd(p, c, i, k);
    }
  }

  lemma FileAfterOpening(p: seq<Cmd>, c: Cmd, i: nat)
    requires FileIs(None, p, i) && Opening(c, i)
    ensures FileIs(c.path.copy, p + [c], i)
  {
    var q := p + [c];
    OpensNow(p, c, i);
    forall k | OpenNow(q, i, k) ensures c.path.copy == q[k].path.copy {
      if k < |p| { OpenAtEnd(p, c, i, k); }
    }
    assert OpenNow(q, i, |p|);
  }

  lemma FileAfterClose(p: seq<Cmd>, i: nat)
    ensures FileIs(None, p + [Close(i)], i)
  {
    forall k | OpenNow(p + [Close(i)], i, k) ensures false {
      if k < |p| { OpenAtEnd(p, Close(i), i, k); }
    }
  }

  lemma {:induction false} FileOpen(n: nat, cmds: seq<Cmd>, i: nat)
    requires i < n
    ensures FileIs(Run(Blank(n), cmds)[i].file, cmds, i)
  {
    if cmds == [] {
      assert Run(Blank(n), cmds)[i].file == None;
    } else {
      var p, c := cmds[..|cmds| - 1], cmds[|cmds| - 1];
      FileOpen(n, p, i);
      assert cmds == p + [c];
      var file := Run(Blank(n), p)[i].file;
      if c == Close(i) {
        FileAfterClose(p, i);
      } else if Opening(c, i) && file.None? {
        FileAfterOpening(p, c, i);
      } else {
        FileAfterOther(file, p, c, i);
      }
    }
  }

  /** The lines stand for the commands at the places `at`: writes to slot i, in order, each line with the
      path of the write that had the slot open then; and no write that found or made it open is missing. */
  ghost predicate Placed(cmds: seq<Cmd>, i: nat, lines: seq<(string, string)>, at: seq<nat>) {
    && |at| == |lines|
    && (forall j, l :: 0 <= j < l < |at| ==> at[j] < at[l])
    && (forall j :: 0 <= j < |at| ==>
          && at[j] < |cmds| && cmds[at[j]].Write? && cmds[at[j]].slot == i && lines[j].1 == cmds[at[j]].line
          && exists k :: OpenAt(cmds, i, k, at[j]) && cmds[k].path.copy == Some(lines[j].0))
    && (forall m :: 0 <= m < |cmds| && cmds[m].Write? && cmds[m].slot == i && (exists k :: OpenAt(cmds, i, k, m)) ==> m in at)
  }

  lemma PlacedGrows(p: seq<Cmd>, c: Cmd, i: nat, lines: seq<(string, string)>, at: seq<nat>)
    requires Placed(p, i, lines, at)
    requires !(c.Write? && c.slot == i && exists k :: OpenNow(p + [c], i, k))
    ensures Placed(p + [c], i, lines, at)
  {
    var q := p + [c];
    forall j | 0 <= j < |at| ensures exists k :: OpenAt(q, i, k, at[j]) && q[k].path.copy == Some(lines[j].0) {
      var k :| OpenAt(p, i, k, at[j]) && p[k].path.copy == Some(lines[j].0);
      OpenAtPrefix(p, c, i, k, at[j]);
    }
    forall m | 0 <= m < |q| && q[m].Write? && q[m].slot == i && (exists k :: OpenAt(q, i, k, m)) ensures m in at {
      var k :| OpenAt(q, i, k, m);
      assert m == |p| ==> OpenNow(q, i, k);
      if m < |p| { OpenAtPrefix(p, c, i, k, m); }
    }
  }

  lemma PlacedSnoc(p: seq<Cmd>, c: Cmd, i: nat, lines: seq<(string, string)>, at: seq<nat>, k: int)
    requires Placed(p, i, lines, at) && c.Write? && c.slot == i && OpenNow(p + [c], i, k)
    ensures (p + [c])[k].path.copy.Some?
    ensures Placed(p + [c], i, lines + [((p + [c])[k].path.copy.value, c.line)], at + [|p|])
  {
    var q, at' := p + [c], at + [|p|];
    var lines' := lines + [(q[k].path.copy.value, c.line)];
    forall j | 0 <= j < |at'| ensures exists k :: OpenAt(q, i, k, at'[j]) && q[k].path.copy == Some(lines'[j].0) {
      if j < |at| {
        var h :| OpenAt(p, i, h, at[j]) && p[h].path.copy == Some(lines[j].0);
        OpenAtPrefix(p, c, i, h, at[j]);
      }
    }
    forall m | 0 <= m < |q| && q[m].Write? && q[m].slot == i && (exists k :: OpenAt(q, i, k, m)) ensures m in at' {
      if m < |p| {
        var h :| OpenAt(q, i, h, m);
        OpenAtPrefix(p, c, i, h, m);
        assert m in at;
      } else {
        assert at'[|at|] == m;
      }
    }
  }

  /** One command adds one line, to the file open then, or none. */
  lemma ExecLine(slots: seq<Slot>, c: Cmd, i: nat)
    requires i < |slots|
    ensures var after := Exec(slots, c)[i];
            after.lines == slots[i].lines + if c.Write? && c.slot == i && after.file.Some? then [(after.file.value, c.line)] else []
  {
    if !(c.Write? && c.slot == i) { assert slots[i].lines + [] == slots[i].lines; }
  }

  lemma LineStep(n: nat, p: seq<Cmd>, c: Cmd, i: nat)
    requires i < n
    ensures var before, after := Run(Blank(n), p)[i], Run(Blank(n), p + [c])[i];
            after.lines == before.lines + if c.Write? && c.slot == i && after.file.Some? then [(after.file.value, c.line)] else []
  {
    RunSnoc(Blank(n), p, c);
    ExecLine(Run(Blank(n), p), c, i);
  }

  lemma PlacedStep(p: seq<Cmd>, c: Cmd, i: nat, lines: seq<(string, string)>, at: seq<nat>, file: Option<string>) returns (at': seq<nat>)
    requires Placed(p, i, lines, at) && FileIs(file, p + [c], i)
    ensures Placed(p + [c], i, lines + if c.Write? && c.slot == i && file.Some? then [(file.value, c.line)] else [], at')
  {
    if c.Write? && c.slot == i && file.Some? {
      var k :| OpenNow(p + [c], i, k);
      PlacedSnoc(p, c, i, lines, at, k);
      at' := at + [|p|];
    } else {
      PlacedGrows(p, c, i, lines, at);
      assert lines + [] == lines;
      at' := at;
    }
  }

  /** Every recorded line is in the file of the write that had its slot open, and none of those is missing. */
  lemma {:induction false} LinesPlaced(n: nat, cmds: seq<Cmd>, i: nat) returns (at: seq<nat>)
    requires i < n
    ensures Placed(cmds, i, Run(Blank(n), cmds)[i].lines, at)
  {
    if cmds == [] {
      return [];
    }
    var p, c := cmds[..|cmds| - 1], cmds[|cmds| - 1];
    at := LinesPlaced(n, p, i);
    assert cmds == p + [c];
    FileOpen(n, cmds, i);
    LineStep(n, p, c, i);
    at := PlacedStep(p, c, i, Run(Blank(n), p)[i].lines, at, Run(Blank(n), cmds)[i].file);
  }

  /** Over every run of both threads: the lines a slot has recorded stand, in order, for writes to it; each
      is paired with the path of the write that opened the slot last before it; and no write that found
      its slot open, or opened it, is missing. */
  lemma LinesInTheirFiles(s: State, n: nat, i: nat)
    requires Reachable(s, n) && i < n
    ensures i < |s.slots| && exists at :: Placed(s.done, i, s.slots[i].lines, at)
  {
    SameAsSynchronous(s, n);
    var at := LinesPlaced(n, s.done, i);
    if s.writer.Exited? { assert s.slots[i] == Closed(Run(Blank(n), s.done)[i]); }
    assert Placed(s.done, i, s.slots[i].lines, at);
  }
}
