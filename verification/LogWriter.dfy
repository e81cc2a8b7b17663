/** The writer thread's own code: reversing a drained stack, and executing a chain of
    commands on the slot array it alone owns. */
module LogWriter {
  import opened Wrappers
  import opened LogFiles
  import opened AsyncLog

  /** Turns a drained stack (newest cell first) into the order of submission, counting as it goes. */
  method StackDrain(stack: seq<Cell>) returns (fifo: seq<Cmd>, count: nat)
    ensures fifo == Oldest(stack) && count == |stack|
  {
    var lifo := stack;
    fifo, count := [], 0;
    while lifo != []
      invariant count + |lifo| == |stack| && lifo == stack[count..]
      invariant fifo == Oldest(stack[..count])
    {
      OldestPop(stack, count);
      fifo := [lifo[0].cmd] + fifo;
      lifo := lifo[1..];
      count := count + 1;
    }
    assert stack[..count] == stack;
  }

  lemma OldestPop(stack: seq<Cell>, i: nat)
    requires i < |stack|
    ensures Oldest(stack[..i + 1]) == [stack[i].cmd] + Oldest(stack[..i])
  {
  }

  class SlotFiles {
    var files: array<Slot>

    constructor (n: nat)
      ensures fresh(files) && files[..] == Blank(n)
    {
      files := new Slot[n](_ => Slot(None, [], 0));
      new;
      assert files[..] == Blank(n);
    }

    /** Opens the slot's file unless it is open already or no path came along. */
    method WriterOpen(i: int, path: Option<string>, opens: bool)
      modifies files
      ensures files[..] == if 0 <= i < files.Length then old(files[..])[i := OpenFor(old(files[..])[i], path, opens)] else old(files[..])
    {
      if i < 0 || i >= files.Length || path.None? {
        return;
      }
      if files[i].file.Some? {
        return;
      }
      if opens {
        files[i] := files[i].(file := path);
      }
    }

    method WriterWrite(i: int, path: Option<string>, line: string, opens: bool)
      modifies files
      ensures files[..] == Exec(old(files[..]), Write(i, Given(path), line, opens))
    {
      if i < 0 || i >= files.Length {
        return;
      }
      if files[i].file.None? {
        WriterOpen(i, path, opens);
      }
      assert files[..][i] == OpenFor(old(files[..])[i], path, opens);
      if files[i].file.None? {
        return;
      }
      files[i] := files[i].(lines := files[i].lines + [(files[i].file.value, line)]);
    }

    method WriterClose(i: int)
      modifies files
      ensures files[..] == Exec(old(files[..]), Close(i))
    {
      if i < 0 || i >= files.Length {
        return;
      }
      if files[i].file.None? {
        return;
      }
      files[i] := files[i].(synced := |files[i].lines|);
      files[i] := files[i].(file := None);
    }

    method FlushFiles()
      modifies files
      ensures files[..] == SyncAll(old(files[..]))
    {
      for i := 0 to files.Length
        invariant forall k :: 0 <= k < files.Length ==>
                    files[k] == if k < i then Synced(old(files[k])) else old(files[k])
      {
        if files[i].file.Some? {
          files[i] := files[i].(synced := |files[i].lines|);
        }
      }
    }

    /** When the writer ends, every file is closed. */
    method CloseFiles()
      modifies files
      ensures files[..] == CloseAll(old(files[..]))
    {
      for i := 0 to files.Length
        invariant forall k :: 0 <= k < files.Length ==>
                    files[k] == if k < i then Closed(old(files[k])) else old(files[k])
      {
        ghost var was := files[..];
        WriterClose(i);
        assert files[..] == was[i := Closed(was[i])];
        assert forall k :: 0 <= k < files.Length ==> files[k] == files[..][k];
      }
    }

    /** Executes a drained chain in order; tells whether a stop sentinel was in it. */
    method Execute(chain: seq<Cmd>) returns (stop: bool)
      modifies files
      ensures files[..] == Run(old(files[..]), chain) && stop == (Stop in chain)
    {
      stop := false;
      for i := 0 to |chain|
        invariant files[..] == Run(old(files[..]), chain[..i])
        invariant stop <==> Stop in chain[..i]
      {
        assert chain[..i + 1] == chain[..i] + [chain[i]];
        RunSnoc(old(files[..]), chain[..i], chain[i]);
        match chain[i] {
          case Write(slot, path, line, opens) => WriterWrite(slot, if path.Given? then path.copy else None, line, opens);
          case Close(slot) => WriterClose(slot);
          case Flush => FlushFiles();
          case Stop => stop := true;
        }
      }
      assert chain[..|chain|] == chain;
    }
  }
}
