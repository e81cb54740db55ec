/** The subscribers of an executor and what `Executor::execute` hands them. */
module Observers {
  import opened Render

  /** The observers `main` subscribes: the file observer, then the console observer. */
  datatype Sink = FileSink | ConsoleSink

  /** One call of `Observer::execute`: which subscriber was handed which block. */
  datatype Notice = Notice(sink: Sink, commands: seq<string>)

  /** The notices of one `execute`: every subscriber once, in subscription order. */
  function Notify(subscribers: seq<Sink>, commands: seq<string>): seq<Notice>
  {
    seq(|subscribers|, i requires 0 <= i < |subscribers| => Notice(subscribers[i], commands))
  }

  /** The notices of publishing the blocks one after another. */
  function Deliveries(subscribers: seq<Sink>, blocks: seq<seq<string>>): seq<Notice>
    decreases |blocks|
  {
    if blocks == [] then []
    else Deliveries(subscribers, blocks[..|blocks| - 1]) + Notify(subscribers, blocks[|blocks| - 1])
  }

  /** The block the executor holds after publishing `blocks`: the last of
      them, or `none`, what it held before, when there are none. */
  function Latest(blocks: seq<seq<string>>, none: seq<string>): seq<string>
  {
    if blocks == [] then none else blocks[|blocks| - 1]
  }

  lemma DeliveriesSnoc(subscribers: seq<Sink>, blocks: seq<seq<string>>, block: seq<string>)
    ensures Deliveries(subscribers, blocks + [block]) == Deliveries(subscribers, blocks) + Notify(subscribers, block)
  {
    assert (blocks + [block])[..|blocks|] == blocks;
  }

  /** Each block adds one notice per subscriber. */
  lemma {:induction false} DeliveriesLength(subscribers: seq<Sink>, blocks: seq<seq<string>>)
    ensures |Deliveries(subscribers, blocks)| == |blocks| * |subscribers|
    decreases |blocks|
  {
    if blocks != [] {
      DeliveriesLength(subscribers, blocks[..|blocks| - 1]);
      assert |blocks| * |subscribers| == (|blocks| - 1) * |subscribers| + |subscribers|;
    }
  }

  /** The j-th subscriber's notice for the i-th block sits at position
      i * |subscribers| + j of the deliveries. */
  ghost predicate DeliveredAt(subscribers: seq<Sink>, blocks: seq<seq<string>>, i: nat, j: nat)
    requires i < |blocks| && j < |subscribers|
  {
    i * |subscribers| + j < |Deliveries(subscribers, blocks)| &&
    Deliveries(subscribers, blocks)[i * |subscribers| + j] == Notice(subscribers[j], blocks[i])
  }

  lemma {:induction false} DeliveryAt(subscribers: seq<Sink>, blocks: seq<seq<string>>, i: nat, j: nat)
    requires i < |blocks| && j < |subscribers|
    ensures DeliveredAt(subscribers, blocks, i, j)
    decreases |blocks|
  {
    var n := |subscribers|;
    var last := |blocks| - 1;
    var prefix := blocks[..last];
    DeliveriesLength(subscribers, prefix);
    DeliveriesLength(subscribers, blocks);
    if i < last {
      DeliveryAt(subscribers, prefix, i, j);
      MulBound(i, last, n, j);
      assert prefix[i] == blocks[i];
    } else {
      assert i * n == last * n;
    }
  }

  /** Every subscriber receives every block exactly once, blocks in order and,
      within a block, subscribers in subscription order. */
  lemma DeliveriesInOrder(subscribers: seq<Sink>, blocks: seq<seq<string>>)
    ensures |Deliveries(subscribers, blocks)| == |blocks| * |subscribers|
    ensures forall i: nat, j: nat | i < |blocks| && j < |subscribers| :: DeliveredAt(subscribers, blocks, i, j)
  {
    DeliveriesLength(subscribers, blocks);
    forall i: nat, j: nat | i < |blocks| && j < |subscribers| {
      DeliveryAt(subscribers, blocks, i, j);
    }
  }

  lemma MulBound(i: nat, m: nat, n: nat, j: nat)
    requires i < m && j < n
    ensures i * n + j < m * n
  {
    assert (i + 1) * n <= m * n;
  }

  /** What a file observer writes for a block: nothing for an empty block,
      otherwise the commands joined by ", " and a newline. */
  method WriteFile(block: seq<string>) returns (file: Option<string>)
    ensures file.None? <==> block == []
    ensures file.Some? ==> file.value == Join(block) + "\n"
  {
    if |block| > 0 {
      var text := FileText(block);
      file := Some(text);
    } else {
      file := None;
    }
  }
}
