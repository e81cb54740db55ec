/** The version without a completion barrier (bulmtk.cpp): the executor only
    hands each block to its subscribers, the parser never waits, the final
    block is published even when it is empty, and the "bulk: " line is
    printed by the console observer rather than by the parser. */
module BulMtk {
  import opened Render
  import opened Observers
  import opened Assembly
  import BulkMt

  /** The blocks `Parser::Start` passes to `set_commands`: every flush of the
      loop, then whatever is pending at the end of the input, even nothing.
      The end of the input always adds exactly one block. */
  function Blocks(lines: seq<string>, rowCount: int): (r: seq<seq<string>>)
    ensures |r| == |Scan(lines, rowCount).blocks| + 1
    ensures r[..|r| - 1] == Scan(lines, rowCount).blocks
    ensures r[|r| - 1] == Scan(lines, rowCount).cursor.pending
  {
    Scan(lines, rowCount).blocks + [Scan(lines, rowCount).cursor.pending]
  }

  /** Concatenated in order, the published blocks are exactly the commands of the input. */
  lemma BlocksKeepCommands(lines: seq<string>, rowCount: int)
    ensures Flatten(Blocks(lines, rowCount)) == Kept(lines)
  {
    var run := Scan(lines, rowCount);
    ScanKeepsCommands(lines, rowCount);
    FlattenAppend(run.blocks, [run.cursor.pending]);
    assert [run.cursor.pending][..0] == [];
  }

  /** The two versions publish the same blocks, except that this one always
      ends with one more block, empty, when nothing is left pending. */
  lemma BlocksAgainstBarrierVersion(lines: seq<string>, rowCount: int)
    ensures Blocks(lines, rowCount) ==
            BulkMt.Blocks(lines, rowCount) + (if Scan(lines, rowCount).cursor.pending == [] then [[]] else [])
    ensures |Blocks(lines, rowCount)| >= 1
  {
    var run := Scan(lines, rowCount);
    if run.cursor.pending == [] {
      assert BulkMt.Blocks(lines, rowCount) == run.blocks;
    } else {
      assert BulkMt.Blocks(lines, rowCount) == run.blocks + [run.cursor.pending];
      assert BulkMt.Blocks(lines, rowCount) + [] == BulkMt.Blocks(lines, rowCount);
    }
  }

  /** When the last line itself flushes (a blank line, a closing brace, the
      size threshold), the block published at the end of the input is empty. */
  lemma FlushOnLastLineLeavesEmptyBlock(lines: seq<string>, rowCount: int)
    requires lines != []
    requires Fires(Scan(lines[..|lines| - 1], rowCount).cursor, lines[|lines| - 1], rowCount)
    ensures Blocks(lines, rowCount)[|Blocks(lines, rowCount)| - 1] == []
  {
  }

  /** A one-line input with threshold 1: this version publishes the line and
      then an empty block, the barrier version only the line. */
  lemma SingleLineExample()
    ensures Blocks(["a"], 1) == [["a"], []]
    ensures BulkMt.Blocks(["a"], 1) == [["a"]]
  {
    assert !Opens("a") && !Closes("a");
    assert KindOf(Initial, "a", 1) == Last && Fires(Initial, "a", 1);
    assert Initial.pending + ["a"] == ["a"];
    assert Feed(Initial, "a", 1) == Run(Initial, [["a"]]);
    var one: seq<string> := ["a"];
    assert one[..0] == [];
    assert Scan(one, 1) == Run(Initial, [] + [["a"]]);
  }

  class Executor {
    var commands: seq<string>
    var subscribers: seq<Sink>
    /** Every `Observer::execute` call so far, in order. */
    var notices: seq<Notice>

    constructor ()
      ensures commands == [] && subscribers == [] && notices == []
    {
      commands, subscribers, notices := [], [], [];
    }

    method Subscribe(s: Sink)
      modifies this
      ensures subscribers == old(subscribers) + [s]
      ensures commands == old(commands) && notices == old(notices)
    {
      subscribers := subscribers + [s];
    }

    /** Stores the block and notifies every subscriber. */
    method SetCommands(cmds: seq<string>)
      modifies this
      ensures commands == cmds && subscribers == old(subscribers)
      ensures notices == old(notices) + Notify(subscribers, cmds)
    {
      commands := cmds;
      Execute();
    }

    /** Hands the current block to every subscriber once, in subscription order. */
    method Execute()
      modifies this
      ensures notices == old(notices) + Notify(subscribers, commands)
      ensures commands == old(commands) && subscribers == old(subscribers)
    {
      var i := 0;
      while i < |subscribers|
        invariant 0 <= i <= |subscribers|
        invariant notices == old(notices) + Notify(subscribers[..i], commands)
        invariant commands == old(commands) && subscribers == old(subscribers)
      {
        assert Notify(subscribers[..i + 1], commands) == Notify(subscribers[..i], commands) + [Notice(subscribers[i], commands)];
        notices := notices + [Notice(subscribers[i], commands)];
        i := i + 1;
      }
      assert subscribers[..i] == subscribers;
    }
  }

  /** What the console observer prints for a block: nothing for an empty
      block, otherwise "bulk: " and the commands separated by ", ". */
  method ConsoleOutput(block: seq<string>) returns (line: Option<string>)
    ensures line.None? <==> block == []
    ensures line.Some? ==> line.value == BulkPrefix + Join(block)
  {
    if |block| > 0 {
      var text := BulkLine(block);
      line := Some(text);
    } else {
      line := None;
    }
  }

  /** The "bulk: " lines the console observer prints over a run: one per
      non-empty block, in publication order. */
  function ConsoleLines(blocks: seq<seq<string>>): (r: seq<string>)
    ensures |r| <= |blocks|
    ensures (forall k | 0 <= k < |blocks| :: blocks[k] != []) ==> r == BulkMt.BulkLines(blocks)
    ensures (forall k | 0 <= k < |blocks| :: blocks[k] == []) ==> r == []
    decreases |blocks|
  {
    if blocks == [] then []
    else
      var prefix := blocks[..|blocks| - 1];
      var last := blocks[|blocks| - 1];
      assert forall k | 0 <= k < |prefix| :: prefix[k] == blocks[k];
      ConsoleLines(prefix) + (if last == [] then [] else [BulkPrefix + Join(last)])
  }

  /** The empty block published at the end of the input prints nothing, so
      the console shows one line per non-empty flush of the loop and one for
      the leftover commands if there are any. */
  lemma ConsoleIgnoresTrailingEmptyBlock(lines: seq<string>, rowCount: int)
    ensures ConsoleLines(Blocks(lines, rowCount)) == ConsoleLines(BulkMt.Blocks(lines, rowCount))
  {
    var run := Scan(lines, rowCount);
    var blocks := Blocks(lines, rowCount);
    assert blocks[..|blocks| - 1] == run.blocks;
    if run.cursor.pending != [] {
      assert BulkMt.Blocks(lines, rowCount) == blocks;
    }
  }

  class Parser {
    const exec: Executor

    constructor (e: Executor)
      ensures exec == e
    {
      exec := e;
    }

    /** Reads the lines, publishes every block as soon as it is complete,
        and at the end of the input publishes what is pending, even nothing. */
    method Start(lines: seq<string>, rowCount: int)
      modifies exec
      ensures exec.subscribers == old(exec.subscribers)
      ensures exec.notices == old(exec.notices) + Deliveries(exec.subscribers, Blocks(lines, rowCount))
      ensures exec.commands == Scan(lines, rowCount).cursor.pending
    {
      ghost var notices0 := exec.notices;
      ghost var run := Scan(lines, rowCount);
      var pending := ReadLines(lines, rowCount);
      exec.SetCommands(pending);
      DeliveriesSnoc(exec.subscribers, run.blocks, pending);
    }

    /** The reading loop of `Start`: one dispatch per line, and a
        `set_commands` whenever the dispatch asks for a flush. Returns what
        is still pending at the end of the input. */
    method ReadLines(lines: seq<string>, rowCount: int) returns (pending: seq<string>)
      modifies exec
      ensures exec.subscribers == old(exec.subscribers)
      ensures pending == Scan(lines, rowCount).cursor.pending
      ensures exec.notices == old(exec.notices) + Deliveries(exec.subscribers, Scan(lines, rowCount).blocks)
      ensures exec.commands == Latest(Scan(lines, rowCount).blocks, old(exec.commands))
    {
      ghost var subs := exec.subscribers;
      ghost var notices0 := exec.notices;
      ghost var commands0 := exec.commands;
      ghost var blocks: seq<seq<string>> := [];
      var depth: nat := 0;
      var count: nat := 1;
      pending := [];
      var i := 0;
      while i < |lines|
        invariant 0 <= i <= |lines|
        invariant Run(Cursor(depth, count, pending), blocks) == Scan(lines[..i], rowCount)
        invariant exec.notices == notices0 + Deliveries(subs, blocks)
        invariant exec.commands == Latest(blocks, commands0)
        invariant exec.subscribers == subs
      {
        assert lines[..i + 1] == lines[..i] + [lines[i]];
        var flush;
        depth, count, pending, flush := Advance(lines[..i], lines[i], rowCount, Cursor(depth, count, pending), blocks);
        if flush {
          Publish(pending, blocks, notices0, commands0);
          blocks := blocks + [pending];
          pending := [];
          count := 1;
        }
        i := i + 1;
      }
      assert lines[..i] == lines;
    }

    /** The `is_ready_data` step inside the loop: publishes the block and
        reads on at once. `blocks` are the blocks flushed before this one,
        `commands0` what the executor held before the first of them. */
    method Publish(pending: seq<string>, ghost blocks: seq<seq<string>>, ghost notices0: seq<Notice>, ghost commands0: seq<string>)
      requires exec.notices == notices0 + Deliveries(exec.subscribers, blocks)
      modifies exec
      ensures exec.subscribers == old(exec.subscribers)
      ensures exec.commands == pending == Latest(blocks + [pending], commands0)
      ensures exec.notices == notices0 + Deliveries(exec.subscribers, blocks + [pending])
    {
      exec.SetCommands(pending);
      DeliveriesSnoc(exec.subscribers, blocks, pending);
    }
  }

  /** What `main` does: one executor, the file observer and then the console
      observer subscribed to it, and a parser run over the input with the
      threshold from the command line. */
  method RunProgram(lines: seq<string>, rowCount: int) returns (notices: seq<Notice>)
    ensures notices == Deliveries([FileSink, ConsoleSink], Blocks(lines, rowCount))
  {
    var exec := new Executor();
    exec.Subscribe(FileSink);
    exec.Subscribe(ConsoleSink);
    assert exec.subscribers == [FileSink, ConsoleSink];
    var parser := new Parser(exec);
    parser.Start(lines, rowCount);
    notices := exec.notices;
  }
}
