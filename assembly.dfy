/** The block-boundary state machine that both versions of `Parser::Start`
    run over the input lines: a brace depth, the number of the current line
    since the last flush, and the pending commands. One input line is one
    `Feed` step; a whole input is the left fold `Scan`. */
module Assembly {

  /** `open_braces`, `count` and `vector_str` between two lines. `count` is
      the 1-based number, since the last flush, of the line about to be read. */
  datatype Cursor = Cursor(depth: nat, count: nat, pending: seq<string>)

  /** The cursor before the first line. */
  const Initial: Cursor := Cursor(0, 1, [])

  /** The cursor after some lines, and the blocks flushed so far, in order. */
  datatype Run = Run(cursor: Cursor, blocks: seq<seq<string>>)

  predicate Opens(line: string) { '{' in line }

  predicate Closes(line: string) { '}' in line }

  /** Which branch of the line dispatch a line takes, in the order the source tests them. */
  datatype Kind = Blank | Open | Close | Last | Plain

  function KindOf(c: Cursor, line: string, rowCount: int): Kind
  {
    if line == [] then Blank
    else if Opens(line) then Open
    else if Closes(line) && c.depth > 0 then Close
    else if c.count == rowCount && c.depth == 0 then Last
    else Plain
  }

  /** Whether the line sets `is_ready_data`. */
  predicate Fires(c: Cursor, line: string, rowCount: int)
  {
    match KindOf(c, line, rowCount)
    case Blank => true
    case Open => c.depth == 0 && c.count != 1
    case Close => c.depth == 1
    case Last => true
    case Plain => false
  }

  // Reference view, independent of the line counter: how a line moves the
  // brace depth, and whether it is a command.

  function NextDepth(depth: nat, line: string): nat
  {
    if line == [] then depth
    else if Opens(line) then depth + 1
    else if Closes(line) && depth > 0 then depth - 1
    else depth
  }

  /** A command is a non-blank line with no '{', and with no '}' while a brace block is open. */
  predicate IsCommand(depth: nat, line: string)
  {
    line != [] && !Opens(line) && !(Closes(line) && depth > 0)
  }

  function DepthAfter(lines: seq<string>): nat
    decreases |lines|
  {
    if lines == [] then 0
    else NextDepth(DepthAfter(lines[..|lines| - 1]), lines[|lines| - 1])
  }

  /** The commands of the input, in input order. */
  function Kept(lines: seq<string>): seq<string>
    decreases |lines|
  {
    if lines == [] then []
    else
      var prefix := lines[..|lines| - 1];
      var line := lines[|lines| - 1];
      Kept(prefix) + (if IsCommand(DepthAfter(prefix), line) then [line] else [])
  }

  /** The blocks, concatenated in order. */
  function Flatten(blocks: seq<seq<string>>): seq<string>
    decreases |blocks|
  {
    if blocks == [] then []
    else Flatten(blocks[..|blocks| - 1]) + blocks[|blocks| - 1]
  }

  /** One line of `Parser::Start`: the new cursor and the block it flushes,
      if any. After a flush nothing is pending and the next line is line 1;
      otherwise the line counter moves on by one. */
  function Feed(c: Cursor, line: string, rowCount: int): (r: Run)
    ensures |r.blocks| <= 1
    ensures |r.blocks| == 1 ==> r.cursor.pending == [] && r.cursor.count == 1
    ensures |r.blocks| == 0 ==> r.cursor.count == c.count + 1
  {
    var kind := KindOf(c, line, rowCount);
    var depth := if kind == Open then c.depth + 1 else if kind == Close then c.depth - 1 else c.depth;
    var pending := if kind == Last || kind == Plain then c.pending + [line] else c.pending;
    if Fires(c, line, rowCount) then Run(Cursor(depth, 1, []), [pending])
    else Run(Cursor(depth, c.count + 1, pending), [])
  }

  /** One step moves the depth as the reference does, and the commands it
      flushes followed by what stays pending are the old pending list plus
      the line exactly when it is a command. */
  lemma FeedKeepsCommands(c: Cursor, line: string, rowCount: int)
    ensures Feed(c, line, rowCount).cursor.depth == NextDepth(c.depth, line)
    ensures Flatten(Feed(c, line, rowCount).blocks) + Feed(c, line, rowCount).cursor.pending
            == c.pending + (if IsCommand(c.depth, line) then [line] else [])
  {
    var r := Feed(c, line, rowCount);
    if |r.blocks| == 1 {
      assert r.blocks[..0] == [];
    }
  }

  /** The lines fed one after another, from the initial cursor. */
  function Scan(lines: seq<string>, rowCount: int): Run
    decreases |lines|
  {
    if lines == [] then Run(Initial, [])
    else
      var before := Scan(lines[..|lines| - 1], rowCount);
      var step := Feed(before.cursor, lines[|lines| - 1], rowCount);
      Run(step.cursor, before.blocks + step.blocks)
  }

  /** What every reachable cursor satisfies: the pending list never holds
      more than the lines read since the last flush; outside braces it holds
      exactly those lines, and with a positive threshold their number stays
      below it. */
  predicate Inv(c: Cursor, rowCount: int)
  {
    c.count >= 1 && |c.pending| < c.count &&
    (c.depth == 0 ==> |c.pending| == c.count - 1 && (rowCount >= 1 ==> c.count <= rowCount))
  }

  lemma FlattenAppend(a: seq<seq<string>>, b: seq<seq<string>>)
    requires |b| <= 1
    ensures Flatten(a + b) == Flatten(a) + Flatten(b)
  {
    if |b| == 1 {
      assert (a + b)[..|a + b| - 1] == a;
      assert b[..0] == [];
    } else {
      assert a + b == a;
    }
  }

  lemma {:induction false} FeedKeepsInv(c: Cursor, line: string, rowCount: int)
    requires Inv(c, rowCount)
    ensures Inv(Feed(c, line, rowCount).cursor, rowCount)
  {
  }

  /** Every cursor `Scan` reaches satisfies `Inv`. */
  lemma {:induction false} ScanInv(lines: seq<string>, rowCount: int)
    ensures Inv(Scan(lines, rowCount).cursor, rowCount)
    decreases |lines|
  {
    if lines != [] {
      ScanInv(lines[..|lines| - 1], rowCount);
      FeedKeepsInv(Scan(lines[..|lines| - 1], rowCount).cursor, lines[|lines| - 1], rowCount);
    }
  }

  /** The cursor's depth is the reference depth of the lines read. */
  lemma {:induction false} ScanDepth(lines: seq<string>, rowCount: int)
    ensures Scan(lines, rowCount).cursor.depth == DepthAfter(lines)
    decreases |lines|
  {
    if lines != [] {
      ScanDepth(lines[..|lines| - 1], rowCount);
      FeedKeepsCommands(Scan(lines[..|lines| - 1], rowCount).cursor, lines[|lines| - 1], rowCount);
    }
  }

  /** Nothing is lost, added or reordered: the flushed blocks followed by the
      pending list are exactly the commands of the input, in order. */
  lemma {:induction false} ScanKeepsCommands(lines: seq<string>, rowCount: int)
    ensures Flatten(Scan(lines, rowCount).blocks) + Scan(lines, rowCount).cursor.pending == Kept(lines)
    decreases |lines|
  {
    if lines != [] {
      var prefix := lines[..|lines| - 1];
      var before := Scan(prefix, rowCount);
      var line := lines[|lines| - 1];
      var step := Feed(before.cursor, line, rowCount);
      var add := if IsCommand(before.cursor.depth, line) then [line] else [];
      assert Kept(lines) == Kept(prefix) + add by {
        ScanDepth(prefix, rowCount);
      }
      assert Flatten(step.blocks) + step.cursor.pending == before.cursor.pending + add by {
        FeedKeepsCommands(before.cursor, line, rowCount);
      }
      assert Flatten(before.blocks + step.blocks) == Flatten(before.blocks) + Flatten(step.blocks) by {
        FlattenAppend(before.blocks, step.blocks);
      }
      ScanKeepsCommands(prefix, rowCount);
      Regroup(Flatten(before.blocks), Flatten(step.blocks), step.cursor.pending, before.cursor.pending, add);
    }
  }

  lemma Regroup<T>(a: seq<T>, b: seq<T>, c: seq<T>, d: seq<T>, e: seq<T>)
    requires b + c == d + e
    ensures (a + b) + c == (a + d) + e
  {
    calc {
      (a + b) + c;
      a + (b + c);
      a + (d + e);
      (a + d) + e;
    }
  }

  /** A blank line always flushes the pending list, even an empty one, and is not kept. */
  lemma BlankLineFlushes(c: Cursor, rowCount: int)
    ensures Feed(c, "", rowCount) == Run(Cursor(c.depth, 1, []), [c.pending])
  {
  }

  /** A '{' at depth 0 flushes the pending list when it is non-empty (the line
      is not the first since the last flush) and flushes nothing when it is
      empty; either way the brace block starts with nothing pending. A line
      holding both braces counts as an opening one. */
  lemma OpenBraceAtTopLevel(c: Cursor, line: string, rowCount: int)
    requires Inv(c, rowCount) && c.depth == 0 && Opens(line)
    ensures Feed(c, line, rowCount).cursor.depth == 1
    ensures Feed(c, line, rowCount).cursor.pending == []
    ensures Feed(c, line, rowCount).blocks == if c.pending == [] then [] else [c.pending]
  {
  }

  /** Inside a brace block only a blank line or the '}' that returns the depth
      to 0 flushes: never the size threshold, never a nested brace. */
  lemma InsideBracesOnlyCloseFlushes(c: Cursor, line: string, rowCount: int)
    requires c.depth > 0 && line != []
    ensures Fires(c, line, rowCount) <==> Closes(line) && !Opens(line) && c.depth == 1
    ensures Fires(c, line, rowCount) ==> Feed(c, line, rowCount).cursor.depth == 0
  {
  }

  /** With a positive threshold, a block flushed by a line read at depth 0
      has at most `rowCount` commands; it has exactly `rowCount` when the
      size rule fires. */
  lemma TopLevelBlockBounded(c: Cursor, line: string, rowCount: int)
    requires Inv(c, rowCount) && c.depth == 0 && rowCount >= 1
    requires Feed(c, line, rowCount).blocks != []
    ensures |Feed(c, line, rowCount).blocks[0]| <= rowCount
    ensures KindOf(c, line, rowCount) == Last ==> |Feed(c, line, rowCount).blocks[0]| == rowCount
  {
  }

  /** Input without braces and a positive threshold: every block has at
      most `rowCount` commands, and the depth stays 0. */
  lemma {:induction false} NoBracesBlocksBounded(lines: seq<string>, rowCount: int)
    requires rowCount >= 1
    requires forall i | 0 <= i < |lines| :: !Opens(lines[i]) && !Closes(lines[i])
    ensures Scan(lines, rowCount).cursor.depth == 0
    ensures forall k | 0 <= k < |Scan(lines, rowCount).blocks| :: |Scan(lines, rowCount).blocks[k]| <= rowCount
    decreases |lines|
  {
    if lines != [] {
      var prefix := lines[..|lines| - 1];
      var before := Scan(prefix, rowCount);
      NoBracesBlocksBounded(prefix, rowCount);
      ScanInv(prefix, rowCount);
      var step := Feed(before.cursor, lines[|lines| - 1], rowCount);
      if step.blocks != [] {
        TopLevelBlockBounded(before.cursor, lines[|lines| - 1], rowCount);
      }
    }
  }

  /** A threshold of 0 or less never fires: `count` is at least 1. Without
      blank lines and braces nothing is flushed and every line is pending. */
  lemma {:induction false} NonPositiveThresholdNeverFlushes(lines: seq<string>, rowCount: int)
    requires rowCount <= 0
    requires forall i | 0 <= i < |lines| :: lines[i] != [] && !Opens(lines[i]) && !Closes(lines[i])
    ensures Scan(lines, rowCount).blocks == []
    ensures Scan(lines, rowCount).cursor == Cursor(0, |lines| + 1, lines)
    decreases |lines|
  {
    if lines != [] {
      NonPositiveThresholdNeverFlushes(lines[..|lines| - 1], rowCount);
      assert lines[..|lines| - 1] + [lines[|lines| - 1]] == lines;
    }
  }

  /** After "{" and n commands free of braces, whatever the threshold,
      nothing has been flushed and the n commands are pending. */
  lemma {:induction false} BraceBlockAccumulates(body: seq<string>, rowCount: int)
    requires forall i | 0 <= i < |body| :: body[i] != [] && !Opens(body[i]) && !Closes(body[i])
    ensures Scan(["{"] + body, rowCount) == Run(Cursor(1, |body| + 2, body), [])
    decreases |body|
  {
    var e: seq<string> := [];
    if body == [] {
      assert Opens("{");
      ScanSnoc(e, "{", rowCount);
      assert e + ["{"] == ["{"] + body;
    } else {
      var shorter := body[..|body| - 1];
      var last := body[|body| - 1];
      BraceBlockAccumulates(shorter, rowCount);
      PlainLinePushed(Cursor(1, |shorter| + 2, shorter), last, rowCount);
      ScanSnoc(["{"] + shorter, last, rowCount);
      assert shorter + [last] == body;
      assert ["{"] + shorter + [last] == ["{"] + body;
    }
  }

  /** An explicit brace block at the start of the input is flushed whole by
      its closing brace, whatever its size and the threshold. */
  lemma BraceBlockFlushedWhole(body: seq<string>, rowCount: int)
    requires forall i | 0 <= i < |body| :: body[i] != [] && !Opens(body[i]) && !Closes(body[i])
    ensures Scan(["{"] + body + ["}"], rowCount) == Run(Initial, [body])
  {
    BraceBlockAccumulates(body, rowCount);
    var lines := ["{"] + body + ["}"];
    assert lines[..|lines| - 1] == ["{"] + body;
  }

  /** One more line is one more `Feed` step. */
  lemma ScanSnoc(lines: seq<string>, line: string, rowCount: int)
    ensures Scan(lines + [line], rowCount) ==
            Run(Feed(Scan(lines, rowCount).cursor, line, rowCount).cursor,
                Scan(lines, rowCount).blocks + Feed(Scan(lines, rowCount).cursor, line, rowCount).blocks)
  {
    assert (lines + [line])[..|lines|] == lines;
  }

  /** What a dispatch reports for one more line, stated on the whole run:
      a flush appends the pending list to the blocks, otherwise the line
      counter moves on. */
  lemma StepAgrees(lines: seq<string>, line: string, rowCount: int, c: Cursor, blocks: seq<seq<string>>,
                   depth: nat, pending: seq<string>, flush: bool)
    requires Scan(lines, rowCount) == Run(c, blocks)
    requires flush ==> Feed(c, line, rowCount) == Run(Cursor(depth, 1, []), [pending])
    requires !flush ==> Feed(c, line, rowCount) == Run(Cursor(depth, c.count + 1, pending), [])
    ensures flush ==> Scan(lines + [line], rowCount) == Run(Cursor(depth, 1, []), blocks + [pending])
    ensures !flush ==> Scan(lines + [line], rowCount) == Run(Cursor(depth, c.count + 1, pending), blocks)
  {
    ScanSnoc(lines, line, rowCount);
    if !flush {
      assert blocks + [] == blocks;
    }
  }

  /** At depth 0, a line without '{' read as the `rowCount`-th since the
      last flush is pushed and then the whole pending list is flushed; a '}'
      at depth 0 is such a line too. */
  lemma SizeRuleFlushes(c: Cursor, line: string, rowCount: int)
    requires line != [] && !Opens(line)
    requires c.depth == 0 && c.count == rowCount
    ensures Feed(c, line, rowCount) == Run(Cursor(0, 1, []), [c.pending + [line]])
  {
  }

  /** Any other line without '{', and without '}' while a brace block is
      open, is pushed, and nothing is flushed; this includes a '}' at depth 0. */
  lemma PlainLinePushed(c: Cursor, line: string, rowCount: int)
    requires line != [] && !Opens(line) && !(Closes(line) && c.depth > 0)
    requires c.depth > 0 || c.count != rowCount
    ensures Feed(c, line, rowCount) == Run(Cursor(c.depth, c.count + 1, c.pending + [line]), [])
  {
  }

  /** With threshold 2 and nothing pending, two more brace-free commands form one block. */
  lemma PairFlushed(lines: seq<string>, blocks: seq<seq<string>>, x: string, y: string)
    requires Scan(lines, 2) == Run(Initial, blocks)
    requires x != [] && !Opens(x) && !Closes(x)
    requires y != [] && !Opens(y) && !Closes(y)
    ensures Scan(lines + [x, y], 2) == Run(Initial, blocks + [[x, y]])
  {
    var mid := lines + [x];
    assert Scan(mid, 2) == Run(Cursor(0, 2, [x]), blocks) by {
      PlainLinePushed(Initial, x, 2);
      assert Initial.pending + [x] == [x];
      StepAgrees(lines, x, 2, Initial, blocks, 0, [x], false);
    }
    assert Scan(mid + [y], 2) == Run(Initial, blocks + [[x, y]]) by {
      SizeRuleFlushes(Cursor(0, 2, [x]), y, 2);
      assert [x] + [y] == [x, y];
      StepAgrees(mid, y, 2, Cursor(0, 2, [x]), blocks, 0, [x, y], true);
    }
    assert mid + [y] == lines + [x, y];
  }

  /** Four commands a, b, c, d free of braces, threshold 2: the blocks are {a, b} and {c, d}. */
  lemma ThresholdTwoBlocks(a: string, b: string, c: string, d: string)
    requires a != [] && !Opens(a) && !Closes(a)
    requires b != [] && !Opens(b) && !Closes(b)
    requires c != [] && !Opens(c) && !Closes(c)
    requires d != [] && !Opens(d) && !Closes(d)
    ensures Scan([a, b, c, d], 2) == Run(Initial, [[a, b], [c, d]])
  {
    var e: seq<string> := [];
    var none: seq<seq<string>> := [];
    PairFlushed(e, none, a, b);
    assert e + [a, b] == [a, b] && none + [[a, b]] == [[a, b]];
    PairFlushed([a, b], [[a, b]], c, d);
    assert [a, b] + [c, d] == [a, b, c, d];
  }

  /** The line dispatch of `Parser::Start`: updates the brace depth, pushes
      the line when it is a command, and says whether the pending list must
      be flushed, exactly as `Feed` specifies. */
  method Dispatch(c: Cursor, line: string, rowCount: int) returns (depth: nat, pending: seq<string>, flush: bool)
    ensures flush == Fires(c, line, rowCount)
    ensures flush ==> Feed(c, line, rowCount) == Run(Cursor(depth, 1, []), [pending])
    ensures !flush ==> Feed(c, line, rowCount) == Run(Cursor(depth, c.count + 1, pending), [])
  {
    depth, pending, flush := c.depth, c.pending, false;
    if line == [] {
      flush := true;
    } else if '{' in line {
      depth := depth + 1;
      if depth == 1 && c.count != 1 {
        flush := true;
      }
    } else if '}' in line && depth > 0 {
      depth := depth - 1;
      if depth == 0 {
        flush := true;
      }
    } else if c.count == rowCount && depth == 0 {
      pending := pending + [line];
      flush := true;
    } else {
      pending := pending + [line];
    }
  }

  /** One pass of a reading loop over the line after `read`: when `flush`
      is false the returned cursor is the one `Scan` reaches and `blocks`
      is unchanged; when it is true, `pending` is the block flushed, and the
      returned depth and count are those `Scan` reaches once it is emptied. */
  method Advance(ghost read: seq<string>, line: string, rowCount: int, c: Cursor, ghost blocks: seq<seq<string>>)
    returns (depth: nat, count: nat, pending: seq<string>, flush: bool)
    requires Scan(read, rowCount) == Run(c, blocks)
    ensures flush ==> Scan(read + [line], rowCount) == Run(Cursor(depth, count, []), blocks + [pending])
    ensures !flush ==> Scan(read + [line], rowCount) == Run(Cursor(depth, count, pending), blocks)
  {
    depth, pending, flush := Dispatch(c, line, rowCount);
    StepAgrees(read, line, rowCount, c, blocks, depth, pending, flush);
    count := if flush then 1 else c.count + 1;
  }
}
