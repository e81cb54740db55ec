# bulkmt / bulmtk — command batching with observers, modelled in Dafny

The program reads commands one per line and groups them into blocks. A block
is complete at any of these points:

- a blank line;
- a `{` that opens a brace block at depth 0, unless it is the first line since the last flush;
- the `}` that closes the outermost brace block;
- the `N`-th line since the last flush at depth 0 (`N` comes from the command line).

Each complete block goes to an executor. The executor hands it to its subscribers in subscription order: a file observer that writes the commands joined by `", "` with a newline, and a console observer. Two versions of the program exist:

- `bulkmt.cpp` has a completion barrier:
  - the executor counts the subscribers' `finish_task` calls, and the parser waits after every flush inside its loop until all subscribers have reported;
  - the parser prints the `"bulk: "` line itself;
  - leftover commands at the end of the input are published only when there are some.
- `bulmtk.cpp` has no barrier:
  - the console observer prints the `"bulk: "` line;
  - the parser always publishes what is left at the end of the input, even nothing.

The model:

- `assembly.dfy` (module `Assembly`) holds the line dispatch that both parsers share:
  - a pure step `Feed` over a cursor (brace depth, 1-based line counter, pending commands);
  - its left fold `Scan` over the input;
  - a reference filter `Kept`/`DepthAfter` that says which lines are commands, independently of the counter;
  - the method `Dispatch`, which is the if/else chain of the source, proved against `Feed`.
- `render.dfy` (module `Render`) holds `Join` and the two loops that build the file text and the `"bulk: "` line.
- `observers.dfy` (module `Observers`) holds the subscriber kinds, the notices an `execute` hands out, and the file observer's output.
- `bulkmt.dfy` (module `BulkMt`) holds:
  - the barrier as a value (`Finish`, `FinishMany`);
  - the `Executor` class with its counter and flag;
  - the parser class, whose reading loop is proved against `Scan`;
  - `main`.
- `bulmtk.dfy` (module `BulMtk`) holds the barrier-less executor, its parser and its console observer, with lemmas comparing its blocks with those of the barrier version.

A blank line flushes the pending list even when it is empty (bulkmt.cpp:324-328 and 357-372, bulmtk.cpp:262-266 and 295-300), so an empty block can be published inside the loop (`Assembly.BlankLineFlushes`). That is the root of the finding below.

## Model

| member | source | states |
|---|---|---|
| Render.FileText | bulmtk.cpp:131-143 | for a non-empty block, the text is the commands joined by ", " followed by one newline; for no commands it is empty |
| Render.BulkLine | bulkmt.cpp:359-369 | the console line is "bulk: " followed by the commands joined by ", ", with no trailing separator |
| Render.JoinSnoc | bulkmt.cpp:178-184 | appending a command to a non-empty block adds exactly one separator, placed before the new command |
| Render.JoinLength | bulmtk.cpp:133-139 | a joined block of n commands has their characters plus exactly n-1 two-character separators |
| Render.JoinEndsWithLast | bulmtk.cpp:136-139 | the joined text ends with the last command: no separator follows it |
| Render.SplitJoin | bulkmt.cpp:178-184 | cutting the joined text at ", " gives back the block, provided no command contains ", " |
| Observers.WriteFile | bulkmt.cpp:154-187 | the file observer writes nothing for an empty block, and otherwise the joined commands and a newline |
| Observers.DeliveriesLength | bulkmt.cpp:68-74 | publishing k blocks to N subscribers makes exactly k·N `execute` calls |
| Observers.DeliveriesInOrder | bulkmt.cpp:68-74 | notice i·N+j is the j-th subscriber receiving the i-th block: every subscriber gets every block once, blocks in order |
| Assembly.Feed | bulkmt.cpp:324-390 | one line flushes at most one block; after a flush nothing is pending and the next line is line 1; otherwise the counter moves on by one |
| Assembly.Dispatch | bulkmt.cpp:324-355 | the source's branch chain sets the flush flag exactly when `Fires` holds and yields the same depth, pending list and block as `Feed` |
| Assembly.Advance | bulkmt.cpp:319-390 | one pass of the reading loop moves the parser exactly as `Scan` moves on one more line: without a flush it returns `Scan`'s next cursor, and with one it returns the flushed block, which `Scan` appends, and the depth and counter `Scan` restarts from |
| Assembly.FeedKeepsCommands | bulkmt.cpp:324-355 | a step moves the depth as the reference does; flushed plus pending commands are the old pending list plus the line exactly when it is a command |
| Assembly.FeedKeepsInv | bulkmt.cpp:324-390 | a step preserves the cursor invariant: pending shorter than the counter, equal to the lines since the last flush at depth 0, and bounded by a positive threshold |
| Assembly.ScanInv | bulkmt.cpp:315-390 | every cursor reached from the start satisfies the invariant |
| Assembly.ScanDepth | bulkmt.cpp:329-346 | the parser's brace depth equals the reference depth of the lines read |
| Assembly.ScanKeepsCommands | bulkmt.cpp:315-373 | the flushed blocks, concatenated in order and followed by what is pending, are exactly the input's commands: non-blank lines with no '{' and no '}' inside braces |
| Assembly.BlankLineFlushes | bulkmt.cpp:324-328 | a blank line always flushes the pending list, even an empty one, keeps the depth and is not itself kept |
| Assembly.OpenBraceAtTopLevel | bulkmt.cpp:329-337 | a '{' at depth 0 raises the depth to 1; it flushes the pending list when that list is non-empty, and flushes nothing when it is empty; a line with both braces counts as opening |
| Assembly.InsideBracesOnlyCloseFlushes | bulkmt.cpp:329-355 | inside braces a non-blank line flushes if and only if it closes the outermost block, and that flush returns the depth to 0 |
| Assembly.TopLevelBlockBounded | bulkmt.cpp:347-351 | with a positive threshold, a block flushed at depth 0 has at most N commands, and exactly N when the size rule fires |
| Assembly.SizeRuleFlushes | bulkmt.cpp:347-351 | at depth 0 the N-th non-blank line without '{', a stray '}' included, is pushed and then the whole pending list is flushed |
| Assembly.PlainLinePushed | bulkmt.cpp:352-355 | any other non-blank line without '{' that does not close a brace block, a '}' at depth 0 included, is pushed and nothing is flushed |
| Assembly.NoBracesBlocksBounded | bulkmt.cpp:347-390 | without braces and with a positive threshold, the depth stays 0 and every block has at most N commands |
| Assembly.NonPositiveThresholdNeverFlushes | bulkmt.cpp:347-355 | with a threshold of 0 or less the size rule never fires: brace-free non-blank lines all stay pending |
| Assembly.BraceBlockAccumulates | bulkmt.cpp:329-355 | after "{" and n brace-free commands nothing is flushed, whatever the threshold, and all n are pending |
| Assembly.BraceBlockFlushedWhole | bulkmt.cpp:338-346 | a brace block at the start of the input is flushed whole by its closing brace, whatever its size and the threshold |
| Assembly.PairFlushed | bulkmt.cpp:347-390 | with threshold 2 and nothing pending, two more brace-free commands form exactly one block |
| Assembly.ThresholdTwoBlocks | bulkmt.cpp:347-390 | the commands a, b, c, d with threshold 2 form the blocks {a, b} and {c, d} |
| BulkMt.Blocks | bulkmt.cpp:392-394 | the blocks passed to `set_commands` are the loop's flushes followed by at most one more, the leftover commands, present exactly when there are some and so never empty |
| BulkMt.BulkLines | bulkmt.cpp:359-369 | the parser prints one line per flushed block, the k-th being "bulk: " and the k-th block joined by ", " |
| BulkMt.BlocksKeepCommands | bulkmt.cpp:315-394 | all blocks passed to `set_commands`, concatenated in order, are exactly the input's commands |
| BulkMt.Finish | bulkmt.cpp:76-90 | `finish_task` never makes the counter negative, keeps it in 0..N (in 1..N when N ≥ 1), never lowers the flag, and raises it only from a count of 1, resetting the counter to N |
| BulkMt.BarrierOpensAfterN | bulkmt.cpp:76-90 | after `set_commands` with N ≥ 1 subscribers, k < N completions leave the flag down with N-k outstanding; the N-th raises it and resets the counter to N |
| BulkMt.BarrierResetsEveryCycle | bulkmt.cpp:59-90 | whatever the number of blocks, each publish-and-complete round ends with the flag up and the counter at N |
| BulkMt.Executor.constructor | bulkmt.cpp:39-41 | a new executor has no subscribers, a zero counter and the flag up |
| BulkMt.Executor.Subscribe | bulkmt.cpp:53-57 | appends the subscriber and increments the counter; nothing else changes |
| BulkMt.Executor.SetCommands | bulkmt.cpp:59-66 | lowers the flag, stores the block and notifies every subscriber once, in order; the counter is unchanged |
| BulkMt.Executor.Execute | bulkmt.cpp:68-74 | appends one notice per subscriber, in subscription order, carrying the current block |
| BulkMt.Executor.FinishTask | bulkmt.cpp:76-90 | the counter and flag move exactly as `Finish` says; the block, subscribers and notices are unchanged |
| BulkMt.CompletionsAsWritten | bulkmt.cpp:276-286 | the observers as written report no completion for an empty block, and with N ≥ 1 subscribers their completions open the barrier exactly when the block is non-empty |
| BulkMt.EmptyBlockStallsBarrier | bulkmt.cpp:324-328 | for "a" then a blank line with threshold 1, the blank line publishes an empty block inside the loop, and the completions the observers make for it leave the flag down |
| BulkMt.ServeBlock | bulkmt.cpp:385-386 | if every subscriber reports the current block once, the parser's wait condition becomes true and the counter is back at N |
| BulkMt.Parser.constructor | bulkmt.cpp:295 | the parser holds the given executor and has printed nothing |
| BulkMt.Parser.Flush | bulkmt.cpp:357-389 | prints the block's "bulk: " line, stores the block in the executor, notifies every subscriber once and, with every subscriber reporting as in `ServeBlock`, returns with the executor ready again |
| BulkMt.Parser.ReadLines | bulkmt.cpp:315-391 | with every subscriber reporting as in `ServeBlock`, the loop publishes exactly the blocks `Scan` flushes, prints one "bulk: " line per block, returns the pending list `Scan` ends with, and leaves the executor ready and holding the last block flushed, or what it held before when nothing was flushed |
| BulkMt.Parser.FlushRest | bulkmt.cpp:392-405 | publishes the leftover commands only when there are some, and does not wait: the flag is down exactly when something was published, and the executor then holds the leftover commands, otherwise what it held before |
| BulkMt.Parser.Start | bulkmt.cpp:296-406 | with every subscriber reporting as in `ServeBlock`, the notices are exactly every subscriber receiving each block of `Blocks` in order; the console holds one "bulk: " line per block flushed in the loop; the executor ends ready exactly when nothing was left over, holding the last block of `Blocks`, or what it held before when there is none |
| BulkMt.RunProgram | bulkmt.cpp:415-426 | with the file observer and then the console observer subscribed, both reporting as in `ServeBlock`, the notices and console lines are those of `Blocks` and the loop's flushes |
| BulMtk.Blocks | bulmtk.cpp:312-314 | the blocks passed to `set_commands` are the loop's flushes followed by exactly one more, whatever is pending at the end, empty or not |
| BulMtk.BlocksKeepCommands | bulmtk.cpp:253-314 | all blocks passed to `set_commands`, concatenated in order, are exactly the input's commands |
| BulMtk.BlocksAgainstBarrierVersion | bulmtk.cpp:312-314 | the blocks equal the barrier version's blocks, plus one trailing empty block exactly when nothing is left pending |
| BulMtk.FlushOnLastLineLeavesEmptyBlock | bulmtk.cpp:295-314 | when the last line itself flushes, the block published at the end of the input is empty |
| BulMtk.SingleLineExample | bulmtk.cpp:312-314 | for the input "a" with threshold 1 this version publishes ["a"] and then an empty block; the barrier version publishes only ["a"] |
| BulMtk.Executor.constructor | bulmtk.cpp:39 | a new executor has no subscribers and no block |
| BulMtk.Executor.Subscribe | bulmtk.cpp:47-50 | appends the subscriber; nothing else changes |
| BulMtk.Executor.SetCommands | bulmtk.cpp:52-57 | stores the block and notifies every subscriber once, in subscription order |
| BulMtk.Executor.Execute | bulmtk.cpp:59-65 | appends one notice per subscriber, in subscription order, carrying the current block |
| BulMtk.ConsoleOutput | bulmtk.cpp:206-218 | the console observer prints nothing for an empty block, and otherwise "bulk: " and the commands joined by ", " |
| BulMtk.ConsoleLines | bulmtk.cpp:206-218 | the console observer prints at most one line per block; when no block is empty these are exactly the barrier version's "bulk: " lines, and when every block is empty it prints nothing |
| BulMtk.ConsoleIgnoresTrailingEmptyBlock | bulmtk.cpp:206-218 | the console prints the same "bulk: " lines for this version's blocks as for the barrier version's: the extra empty block prints nothing |
| BulMtk.Parser.constructor | bulmtk.cpp:234 | the parser holds the given executor |
| BulMtk.Parser.Publish | bulmtk.cpp:295-300 | a flush inside the loop stores the block in the executor, notifies every subscriber of it once and does not wait |
| BulMtk.Parser.ReadLines | bulmtk.cpp:253-311 | the loop publishes exactly the blocks `Scan` flushes, returns the pending list `Scan` ends with, and leaves the executor holding the last block flushed, or what it held before when nothing was flushed |
| BulMtk.Parser.Start | bulmtk.cpp:235-323 | the notices are exactly every subscriber receiving each block of `Blocks`, the trailing one included, in order; the last block stored is what was left over |
| BulMtk.RunProgram | bulmtk.cpp:329-341 | with the file observer and then the console observer subscribed, the notices are those of `Blocks` |

## Left out

- Threads, mutexes, condition variables and the observers' `Run` worker loops and destructors are not modelled. Each subscriber's processing is a sequential step. In the barrier version, `ServeBlock` runs the subscribers' completions one after another, and each `finish_task` is atomic.
- The two file-observer threads share one subscription (bulkmt.cpp:103-104), but the observer's mutex is held from the wait to the reset of its flag (bulkmt.cpp:147-207), so each block is processed by one of them only. The model has one file subscriber.
- Two races of the barrier version are not modelled. The parser waits under its own mutex (bulkmt.cpp:385-386) while `finish_task` raises the flag under the executor's mutex (bulkmt.cpp:83-85), so a wakeup can be lost. `finish_task` also tests and decrements the counter in two separate atomic operations (bulkmt.cpp:78-81), so two concurrent completions can both pass the test.
- `execute` hands each observer a pointer to the executor's single stored block (bulkmt.cpp:72, bulmtk.cpp:63), not a copy, and each observer keeps one "data present" flag, not a queue (bulmtk.cpp:87, 160). In the barrier-less version a later `set_commands`, the unconditional one at the end of the input (bulmtk.cpp:312) included, can overwrite the block before an observer thread reads it, and two blocks published in quick succession can wake an observer only once. The model's notice copies the block and every notice is processed.
- BulMtk.ConsoleLines: states the console output of a sequential reading in which every published block is printed before the next is stored; with the pointer hand-off above, lines can be lost or show a later block.
- BulMtk.ConsoleIgnoresTrailingEmptyBlock: holds in the same sequential reading only; in the source the trailing empty block can overwrite the last non-empty one before the console thread reads it, and the "bulk: " line of that block is then lost.
- Input is a sequence of lines and not `std::cin`. Console and file output are returned values or recorded sequences, and not streams.
- File names are not modelled: they are built from the time and milliseconds. A file that fails to open is assumed to open. In the source such a block is not written, and in the barrier version it is not reported either.
- The timestamp `fct`, taken when the line counter is 1, and the executor's `m_fct` are not modelled: they only feed file names.
- The summary counters (`line_count`, `command_count`, `block_count`) and the "main thread - …", "file… thread - …" and "log thread - …" messages are not modelled. They only produce log text.
- `std::stoi` parsing of the threshold in `main` is not modelled: the threshold is an unbounded integer parameter, with no 32-bit overflow of the line counter.
- The null-executor check at the start of `Parser::Start` is not modelled: the model's parser always holds an executor.
- The observers' self-aliasing `shared_ptr` is not modelled: a subscriber is a value.
- BulkMt.Parser.Flush: returns with the executor ready because the subscribers report as in `BulkMt.ServeBlock`, the corrected observers of the finding below. As written, the observers report nothing for an empty block (bulkmt.cpp:154, 204, 276, 285), so after an empty block the wait at bulkmt.cpp:386 never returns. For a non-empty block the as-written observers report exactly as `ServeBlock` does (`BulkMt.CompletionsAsWritten`), so the contract holds of the source for every non-empty block.
- BulkMt.Parser.ReadLines: holds with the corrected observers of `BulkMt.ServeBlock`. As written, the source never gets past the first empty block published inside the loop, for example a blank first line, `{` then `}`, or a blank line right after a flush. So the contract holds of the source only for inputs whose loop publishes no empty block, which are exactly the runs of the source that return.
- BulkMt.Parser.Start: as for `BulkMt.Parser.ReadLines`, holds of the source only for inputs whose loop publishes no empty block, which are exactly the runs of the source that return. It also requires at least one subscriber and a ready executor with its counter at N. `main` always subscribes two. With no subscriber the wait after a flush never returns.
- BulkMt.RunProgram: as for `BulkMt.Parser.Start`, its notices and console lines are those of the source only for inputs whose loop publishes no empty block. For any other input the program as written stops at the first empty block and never returns.
- BulkMt.ServeBlock: has every subscriber report every block, including an empty one. This is the corrected behaviour of the finding below, and the observers as written do otherwise.

## Findings

| source | as written | input that shows it | evidently intended | confidence | as-written member | corrected member |
|---|---|---|---|---|---|---|
| bulkmt.cpp:276-286 | The file observer (bulkmt.cpp:154, 204) and the console observer (bulkmt.cpp:276, 285) call `finish_task` only for a non-empty block. But a blank line flushes even an empty pending list inside the loop (bulkmt.cpp:324-328), and the parser then waits for the barrier (bulkmt.cpp:386). | Threshold 1, lines "a" then "": "a" is flushed by the size rule, then the blank line publishes an empty block; no subscriber reports it, the flag stays down and the parser waits forever | Every subscriber reports completion for every block it is handed, empty or not, so the wait after each flush returns | high (not executed) | BulkMt.EmptyBlockStallsBarrier | BulkMt.ServeBlock |
