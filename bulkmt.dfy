/** The version with a completion barrier (bulkmt.cpp): the executor counts
    down the subscribers' `finish_task` calls and the parser waits after
    every flush until all of them have reported. */
module BulkMt {
  import opened Render
  import opened Observers
  import opened Assembly

  /** The blocks flushed inside the loop, then the leftover commands only when there are some. */
  function WithRest(blocks: seq<seq<string>>, rest: seq<string>): seq<seq<string>>
  {
    if |rest| > 0 then blocks + [rest] else blocks
  }

  /** The blocks `Parser::Start` passes to `set_commands`: every flush of the
      loop, then the leftover commands only when there are some. The end of
      the input adds at most one block, and never an empty one. */
  function Blocks(lines: seq<string>, rowCount: int): (r: seq<seq<string>>)
    ensures |Scan(lines, rowCount).blocks| <= |r| <= |Scan(lines, rowCount).blocks| + 1
    ensures r[..|Scan(lines, rowCount).blocks|] == Scan(lines, rowCount).blocks
    ensures |r| > |Scan(lines, rowCount).blocks| <==> Scan(lines, rowCount).cursor.pending != []
    ensures |r| > |Scan(lines, rowCount).blocks| ==> r[|r| - 1] == Scan(lines, rowCount).cursor.pending
  {
    WithRest(Scan(lines, rowCount).blocks, Scan(lines, rowCount).cursor.pending)
  }

  /** Concatenated in order, the published blocks are exactly the commands of the input. */
  lemma BlocksKeepCommands(lines: seq<string>, rowCount: int)
    ensures Flatten(Blocks(lines, rowCount)) == Kept(lines)
  {
    var run := Scan(lines, rowCount);
    ScanKeepsCommands(lines, rowCount);
    if |run.cursor.pending| > 0 {
      FlattenAppend(run.blocks, [run.cursor.pending]);
      assert [run.cursor.pending][..0] == [];
    }
  }

  /** The "bulk: " lines the parser prints, one per flush inside the loop:
      the k-th is "bulk: " and the k-th block joined by ", ". */
  function BulkLines(blocks: seq<seq<string>>): (r: seq<string>)
    ensures |r| == |blocks|
    ensures forall k | 0 <= k < |blocks| :: r[k] == BulkPrefix + Join(blocks[k])
    decreases |blocks|
  {
    if blocks == [] then []
    else
      var prefix := blocks[..|blocks| - 1];
      assert forall k | 0 <= k < |prefix| :: prefix[k] == blocks[k];
      BulkLines(prefix) + [BulkPrefix + Join(blocks[|blocks| - 1])]
  }

  lemma BulkLinesSnoc(blocks: seq<seq<string>>, block: seq<string>)
    ensures BulkLines(blocks + [block]) == BulkLines(blocks) + [BulkPrefix + Join(block)]
  {
    assert (blocks + [block])[..|blocks|] == blocks;
  }

  // The barrier as a value: `m_nReadySubscribersCount` and `m_bReadyProcessData`.

  datatype Barrier = Barrier(outstanding: int, ready: bool)

  /** One `finish_task` with `n` subscribers. */
  function Finish(b: Barrier, n: nat): (r: Barrier)
    ensures b.outstanding >= 0 ==> r.outstanding >= 0
    ensures 0 <= b.outstanding <= n ==> 0 <= r.outstanding <= n
    ensures n >= 1 && 1 <= b.outstanding <= n ==> 1 <= r.outstanding <= n
    ensures b.ready ==> r.ready
    ensures !b.ready && r.ready ==> b.outstanding == 1 && r.outstanding == n
  {
    if b.outstanding > 0 then
      if b.outstanding - 1 == 0 then Barrier(n, true) else Barrier(b.outstanding - 1, b.ready)
    else b
  }

  /** `k` calls of `finish_task` in a row. */
  function FinishMany(b: Barrier, n: nat, k: nat): Barrier
    decreases k
  {
    if k == 0 then b else Finish(FinishMany(b, n, k - 1), n)
  }

  /** After `set_commands` with N >= 1 subscribers, fewer than N completions
      leave the flag down and count down; the N-th raises the flag and resets
      the counter to N. */
  lemma {:induction false} BarrierOpensAfterN(n: nat, k: nat)
    requires 1 <= n && k <= n
    ensures FinishMany(Barrier(n, false), n, k) == if k < n then Barrier(n - k, false) else Barrier(n, true)
    decreases k
  {
    if k > 0 {
      BarrierOpensAfterN(n, k - 1);
    }
  }

  /** The barrier after `cycles` rounds of `set_commands` (flag down)
      followed by N completions, starting idle with N subscribers. */
  function AfterCycles(n: nat, cycles: nat): Barrier
    decreases cycles
  {
    if cycles == 0 then Barrier(n, true)
    else FinishMany(Barrier(AfterCycles(n, cycles - 1).outstanding, false), n, n)
  }

  /** However many blocks have gone through, each round ends with the counter
      back at exactly N and the flag up. */
  lemma {:induction false} BarrierResetsEveryCycle(n: nat, cycles: nat)
    requires n >= 1
    ensures AfterCycles(n, cycles) == Barrier(n, true)
    decreases cycles
  {
    if cycles > 0 {
      BarrierResetsEveryCycle(n, cycles - 1);
      BarrierOpensAfterN(n, n);
    }
  }

  class Executor {
    var commands: seq<string>
    /** `m_bReadyProcessData`: the parser may read on. */
    var ready: bool
    /** `m_nReadySubscribersCount`: completions still awaited. */
    var outstanding: int
    var subscribers: seq<Sink>
    /** Every `Observer::execute` call so far, in order. */
    var notices: seq<Notice>

    /** The counter stays between 0 and N, and above 0 once there is a subscriber. */
    ghost predicate Valid()
      reads this
    {
      0 <= outstanding <= |subscribers| && (|subscribers| > 0 ==> outstanding > 0)
    }

    function Gate(): Barrier
      reads this
    {
      Barrier(outstanding, ready)
    }

    constructor ()
      ensures Valid()
      ensures commands == [] && ready && outstanding == 0 && subscribers == [] && notices == []
    {
      commands, ready, outstanding, subscribers, notices := [], true, 0, [], [];
    }

    method Subscribe(s: Sink)
      requires Valid()
      modifies this
      ensures Valid()
      ensures subscribers == old(subscribers) + [s] && outstanding == old(outstanding) + 1
      ensures ready == old(ready) && commands == old(commands) && notices == old(notices)
    {
      subscribers := subscribers + [s];
      outstanding := outstanding + 1;
    }

    /** Publishes a block: lowers the flag, stores the block and notifies every subscriber. */
    method SetCommands(cmds: seq<string>)
      requires Valid()
      modifies this
      ensures Valid() && !ready && commands == cmds
      ensures notices == old(notices) + Notify(subscribers, cmds)
      ensures outstanding == old(outstanding) && subscribers == old(subscribers)
    {
      ready := false;
      commands := cmds;
      Execute();
    }

    /** Hands the current block to every subscriber once, in subscription order. */
    method Execute()
      modifies this
      ensures notices == old(notices) + Notify(subscribers, commands)
      ensures commands == old(commands) && subscribers == old(subscribers)
      ensures ready == old(ready) && outstanding == old(outstanding)
    {
      var i := 0;
      while i < |subscribers|
        invariant 0 <= i <= |subscribers|
        invariant notices == old(notices) + Notify(subscribers[..i], commands)
        invariant commands == old(commands) && subscribers == old(subscribers)
        invariant ready == old(ready) && outstanding == old(outstanding)
      {
        assert Notify(subscribers[..i + 1], commands) == Notify(subscribers[..i], commands) + [Notice(subscribers[i], commands)];
        notices := notices + [Notice(subscribers[i], commands)];
        i := i + 1;
      }
      assert subscribers[..i] == subscribers;
    }

    /** One subscriber reports that it has processed the current block. */
    method FinishTask()
      requires Valid()
      modifies this
      ensures Valid() && Gate() == Finish(old(Gate()), |subscribers|)
      ensures commands == old(commands) && subscribers == old(subscribers) && notices == old(notices)
    {
      if outstanding > 0 {
        outstanding := outstanding - 1;
        if outstanding == 0 {
          ready := true;
          outstanding := |subscribers|;
        }
      }
    }
  }

  /** How many `finish_task` calls the subscribers make for a block, as the
      observers are written: only a non-empty block is processed and
      reported; an empty one is dropped without a report. */
  function CompletionsAsWritten(n: nat, block: seq<string>): (r: nat)
    ensures block == [] ==> r == 0
    ensures n >= 1 ==> (FinishMany(Barrier(n, false), n, r).ready <==> block != [])
  {
    if |block| > 0 then
      if n >= 1 then BarrierOpensAfterN(n, n); n else n
    else 0
  }

  /** A blank line right after a size flush publishes an empty block inside
      the loop, so the parser waits for it; as written no subscriber reports
      it, the flag stays down and the wait never returns. */
  lemma EmptyBlockStallsBarrier()
    ensures Scan(["a", ""], 1).blocks == [["a"], []]
    ensures FinishMany(Barrier(2, false), 2, CompletionsAsWritten(2, [])) == Barrier(2, false)
  {
    assert !Opens("a") && !Closes("a");
    assert KindOf(Initial, "a", 1) == Last && Fires(Initial, "a", 1);
    assert Initial.pending + ["a"] == ["a"];
    assert Feed(Initial, "a", 1) == Run(Initial, [["a"]]);
    var one: seq<string> := ["a"];
    assert one[..0] == [];
    assert Scan(one, 1) == Run(Initial, [] + [["a"]]);
    var two: seq<string> := ["a", ""];
    assert two[..1] == one;
    BlankLineFlushes(Initial, 1);
    assert Scan(two, 1) == Run(Initial, [["a"]] + [[]]);
  }

  /** The subscribers' workers, run one after another: each processes the
      current block, whatever it holds, and reports completion once. With
      this behaviour the parser's wait always returns. */
  method ServeBlock(exec: Executor)
    requires exec.Valid() && !exec.ready && exec.outstanding == |exec.subscribers| >= 1
    modifies exec
    ensures exec.Valid() && exec.ready && exec.outstanding == |exec.subscribers|
    ensures exec.commands == old(exec.commands) && exec.subscribers == old(exec.subscribers)
    ensures exec.notices == old(exec.notices)
  {
    var n := |exec.subscribers|;
    var k := 0;
    while k < n
      invariant 0 <= k <= n
      invariant exec.Valid() && exec.Gate() == FinishMany(Barrier(n, false), n, k)
      invariant exec.commands == old(exec.commands) && exec.subscribers == old(exec.subscribers)
      invariant exec.notices == old(exec.notices)
    {
      exec.FinishTask();
      k := k + 1;
    }
    BarrierOpensAfterN(n, n);
  }

  class Parser {
    const exec: Executor
    /** The "bulk: " lines printed so far. */
    var console: seq<string>

    constructor (e: Executor)
      ensures exec == e && console == []
    {
      exec := e;
      console := [];
    }

    /** The `is_ready_data` step inside the loop: prints the block's "bulk: "
        line, publishes the block, and waits until every subscriber has
        reported it. `blocks` are the blocks flushed before this one. */
    method Flush(pending: seq<string>, ghost blocks: seq<seq<string>>, ghost notices0: seq<Notice>, ghost console0: seq<string>)
      requires exec.Valid() && exec.ready && exec.outstanding == |exec.subscribers| >= 1
      requires exec.notices == notices0 + Deliveries(exec.subscribers, blocks)
      requires console == console0 + BulkLines(blocks)
      modifies this, exec
      ensures exec.Valid() && exec.ready && exec.outstanding == |exec.subscribers|
      ensures exec.subscribers == old(exec.subscribers)
      ensures exec.commands == pending
      ensures exec.notices == notices0 + Deliveries(exec.subscribers, blocks + [pending])
      ensures console == console0 + BulkLines(blocks + [pending])
    {
      var text := BulkLine(pending);
      console := console + [text];
      exec.SetCommands(pending);
      ServeBlock(exec);
      DeliveriesSnoc(exec.subscribers, blocks, pending);
      BulkLinesSnoc(blocks, pending);
    }

    /** Reads the lines, prints and publishes every block, waits after each
        flush inside the loop until every subscriber has reported, and
        finally publishes the leftover commands, if any, without waiting. */
    method Start(lines: seq<string>, rowCount: int)
      requires exec.Valid() && exec.ready && exec.outstanding == |exec.subscribers| >= 1
      modifies this, exec
      ensures exec.Valid() && exec.subscribers == old(exec.subscribers)
      ensures exec.outstanding == |exec.subscribers|
      ensures exec.notices == old(exec.notices) + Deliveries(exec.subscribers, Blocks(lines, rowCount))
      ensures console == old(console) + BulkLines(Scan(lines, rowCount).blocks)
      ensures exec.ready <==> Scan(lines, rowCount).cursor.pending == []
      ensures exec.commands == Latest(Blocks(lines, rowCount), old(exec.commands))
    {
      ghost var notices0 := exec.notices;
      ghost var commands0 := exec.commands;
      ghost var run := Scan(lines, rowCount);
      var pending := ReadLines(lines, rowCount);
      FlushRest(pending, run.blocks, notices0);
      if pending != [] {
        assert Blocks(lines, rowCount) == run.blocks + [pending];
      } else {
        assert Blocks(lines, rowCount) == run.blocks;
      }
    }

    /** The end of `Start`: publishes the leftover commands, if any, and does
        not wait for them. `blocks` are the blocks flushed inside the loop. */
    method FlushRest(pending: seq<string>, ghost blocks: seq<seq<string>>, ghost notices0: seq<Notice>)
      requires exec.Valid() && exec.ready
      requires exec.notices == notices0 + Deliveries(exec.subscribers, blocks)
      modifies exec
      ensures exec.Valid() && exec.subscribers == old(exec.subscribers)
      ensures exec.outstanding == old(exec.outstanding)
      ensures exec.notices == notices0 + Deliveries(exec.subscribers, WithRest(blocks, pending))
      ensures exec.ready <==> pending == []
      ensures exec.commands == if pending != [] then pending else old(exec.commands)
    {
      if |pending| > 0 {
        exec.SetCommands(pending);
        assert WithRest(blocks, pending) == blocks + [pending];
        DeliveriesSnoc(exec.subscribers, blocks, pending);
      } else {
        assert WithRest(blocks, pending) == blocks;
      }
    }

    /** The reading loop of `Start`: one dispatch per line, and a flush with
        its wait whenever the dispatch asks for one. Returns what is still
        pending at the end of the input. */
    method ReadLines(lines: seq<string>, rowCount: int) returns (pending: seq<string>)
      requires exec.Valid() && exec.ready && exec.outstanding == |exec.subscribers| >= 1
      modifies this, exec
      ensures exec.Valid() && exec.ready && exec.outstanding == |exec.subscribers|
      ensures exec.subscribers == old(exec.subscribers)
      ensures pending == Scan(lines, rowCount).cursor.pending
      ensures exec.notices == old(exec.notices) + Deliveries(exec.subscribers, Scan(lines, rowCount).blocks)
      ensures console == old(console) + BulkLines(Scan(lines, rowCount).blocks)
      ensures exec.commands == Latest(Scan(lines, rowCount).blocks, old(exec.commands))
    {
      ghost var subs := exec.subscribers;
      ghost var notices0 := exec.notices;
      ghost var commands0 := exec.commands;
      ghost var console0 := console;
      ghost var blocks: seq<seq<string>> := [];
      var depth: nat := 0;
      var count: nat := 1;
      pending := [];
      var i := 0;
      while i < |lines|
        invariant 0 <= i <= |lines|
        invariant Run(Cursor(depth, count, pending), blocks) == Scan(lines[..i], rowCount)
        invariant exec.notices == notices0 + Deliveries(subs, blocks)
        invariant console == console0 + BulkLines(blocks)
        invariant exec.commands == Latest(blocks, commands0)
        invariant exec.Valid() && exec.ready && exec.outstanding == |exec.subscribers|
        invariant exec.subscribers == subs
      {
        assert lines[..i + 1] == lines[..i] + [lines[i]];
        var flush;
        depth, count, pending, flush := Advance(lines[..i], lines[i], rowCount, Cursor(depth, count, pending), blocks);
        if flush {
          Flush(pending, blocks, notices0, console0);
          blocks := blocks + [pending];
          pending := [];
        }
        i := i + 1;
      }
      assert lines[..i] == lines;
    }
  }

  /** What `main` does: one executor, the file observer and then the console
      observer subscribed to it, and a parser run over the input with the
      threshold from the command line. */
  method RunProgram(lines: seq<string>, rowCount: int) returns (notices: seq<Notice>, console: seq<string>)
    ensures notices == Deliveries([FileSink, ConsoleSink], Blocks(lines, rowCount))
    ensures console == BulkLines(Scan(lines, rowCount).blocks)
  {
    var exec := new Executor();
    exec.Subscribe(FileSink);
    exec.Subscribe(ConsoleSink);
    assert exec.subscribers == [FileSink, ConsoleSink];
    var parser := new Parser(exec);
    parser.Start(lines, rowCount);
    notices := exec.notices;
    console := parser.console;
  }
}
