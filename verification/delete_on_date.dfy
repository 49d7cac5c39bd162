/** `delete_messages_on_date`: scan the day window of the target date, then
    delete what the scan found, batch by batch.
 */
module DeleteOnDate {
  import Window
  import Scanner
  import Batching
  import Deleter

  /** What one call does: the ids the scan collected, how many messages it
      pulled from the stream, and the deletion run over the collected ids. */
  datatype Report = Report(found: seq<int>, inspected: nat, run: Deleter.Run)

  /** The deletion phase. With nothing found the function returns 0 before
      any delete request. */
  function DeleteAll(ids: seq<int>, o: Deleter.Oracle): Deleter.Run
  {
    if |ids| == 0 then Deleter.Run(Deleter.Count(0), [])
    else Deleter.DeleteBatches(Batching.Batches(ids), o, 0)
  }

  /** Both phases in sequence. */
  function DeleteMessagesOnDate(stream: seq<Scanner.Message>, day: int, o: Deleter.Oracle): Report
  {
    var scan := Scanner.Scan(stream, Window.WindowEnd(day));
    Report(scan.ids, scan.inspected, DeleteAll(scan.ids, o))
  }

  /** A normal return reports the ids of the batches that were deleted, each
      in full: never more than were found, all of them exactly when every
      batch was deleted. It is a normal return exactly when no batch's
      resend failed. */
  lemma DeleteAllAccounting(ids: seq<int>, o: Deleter.Oracle)
    ensures var r := DeleteAll(ids, o);
            var bs := Batching.Batches(ids);
            && (r.verdict.Count? <==> forall j :: 0 <= j < |bs| ==> Deleter.FateOf(o, j) != Deleter.Escaped)
            && (r.verdict.Count? ==> r.verdict.deleted == Deleter.CounterAfter(bs, o, |bs|) <= |ids|)
            && (r.verdict.Count? ==>
                  (r.verdict.deleted == |ids| <==> forall j :: 0 <= j < |bs| ==> Deleter.FateOf(o, j) == Deleter.Deleted))
  {
    var bs := Batching.Batches(ids);
    var total := |Batching.Concat(bs[..|bs|])|;
    assert total == |ids| by {
      assert bs[..|bs|] == bs;
      Batching.BatchesPartition(ids);
    }
    Deleter.DeleteBatchesVerdict(bs, o, 0);
    Deleter.DeleteBatchesAccounting(bs, o, 0);
    Deleter.CounterBounds(bs, o, |bs|);
  }

  /** Every delete request sends one batch of the strided loop at app.py:85: a
      non-empty slice `ids[100 b : 100 b + 100]` of at most 100 ids. */
  lemma DeleteAllRequests(ids: seq<int>, o: Deleter.Oracle)
    ensures var t := DeleteAll(ids, o).trace;
            forall i :: 0 <= i < |t| && t[i].Request? ==>
              && 0 < |t[i].ids| <= Batching.BatchSize
              && t[i].ids == Batching.Slice(ids, t[i].batch * Batching.BatchSize, t[i].batch * Batching.BatchSize + Batching.BatchSize)
  {
    if |ids| > 0 {
      var bs := Batching.Batches(ids);
      var t := Deleter.DeleteBatches(bs, o, 0).trace;
      Deleter.TraceBatches(bs, o, 0);
      forall i | 0 <= i < |t| && t[i].Request?
        ensures 0 < |t[i].ids| <= Batching.BatchSize
        ensures t[i].ids == Batching.Slice(ids, t[i].batch * Batching.BatchSize, t[i].batch * Batching.BatchSize + Batching.BatchSize)
      {
        var b := t[i].batch;
        assert t[i].ids == bs[b];
        Batching.BatchAt(ids, b);
      }
    }
  }

  /** Each batch is sent at most twice, and twice only after a flood wait. */
  lemma DeleteAllAttempts(ids: seq<int>, o: Deleter.Oracle, j: nat)
    ensures Deleter.Attempts(DeleteAll(ids, o).trace, j) <= 2
    ensures Deleter.Attempts(DeleteAll(ids, o).trace, j) == 2 ==> o(j, Deleter.First).FloodWait?
  {
    if |ids| > 0 {
      Deleter.AttemptsPerBatch(Batching.Batches(ids), o, 0, j);
    }
  }

  /** A resend that fails ends the whole deletion: batch `j` is the last one
      attempted and no later batch gets a request, even though its first
      request was answered with a flood wait and not with a plain error. */
  lemma ResendFailureAborts(ids: seq<int>, o: Deleter.Oracle, j: nat)
    requires j < |Batching.Batches(ids)|
    requires o(j, Deleter.First).FloodWait? && !o(j, Deleter.Resend).Ok?
    requires forall i :: 0 <= i < j ==> Deleter.FateOf(o, i) != Deleter.Escaped
    ensures DeleteAll(ids, o).verdict == Deleter.Aborted(j)
    ensures forall j' :: j < j' ==> Deleter.Attempts(DeleteAll(ids, o).trace, j') == 0
    ensures Deleter.Attempts(DeleteAll(ids, o).trace, j) == 2
  {
    var bs := Batching.Batches(ids);
    var r := Deleter.DeleteBatches(bs, o, 0);
    assert r == DeleteAll(ids, o);
    Deleter.DeleteBatchesVerdict(bs, o, 0);
    assert Deleter.FateOf(o, j) == Deleter.Escaped;
    assert r.verdict == Deleter.Aborted(j);
    forall j' | j <= j'
      ensures Deleter.Attempts(r.trace, j') == (if j' == j then 2 else 0)
    {
      Deleter.AttemptsPerBatch(bs, o, 0, j');
    }
  }

  /** A plain error on a batch's first request skips that batch and only
      that batch: the batches after it are still attempted (unless a later
      resend fails), and the skipped ids are not counted. */
  lemma FailedBatchSkipped(ids: seq<int>, o: Deleter.Oracle, j: nat)
    requires j < |Batching.Batches(ids)|
    requires o(j, Deleter.First) == Deleter.Failed
    ensures Deleter.FateOf(o, j) == Deleter.Skipped
    ensures DeleteAll(ids, o).verdict != Deleter.Aborted(j)
    ensures var r := DeleteAll(ids, o);
            forall j' :: j < j' < |Batching.Batches(ids)| && (r.verdict.Count? || j' <= r.verdict.batch) ==>
              Deleter.Attempts(r.trace, j') >= 1
    ensures var bs := Batching.Batches(ids);
            Deleter.CounterAfter(bs, o, j + 1) == Deleter.CounterAfter(bs, o, j)
  {
    var bs := Batching.Batches(ids);
    Deleter.DeleteBatchesVerdict(bs, o, 0);
    forall j' | j < j' < |bs|
      ensures var r := DeleteAll(ids, o);
              (r.verdict.Count? || j' <= r.verdict.batch) ==> Deleter.Attempts(r.trace, j') >= 1
    {
      Deleter.AttemptsPerBatch(bs, o, 0, j');
    }
  }

  /** An example day, 2024-03-10 (day 19792): of
      messages at 09:00, 23:59:59 and midnight of the next day, only the
      first two are collected, and the scan stops at the third. */
  lemma ScanExampleDay()
    ensures var start := Window.WindowStart(19792);
            var stream := [Scanner.Message(1, start + 32400), Scanner.Message(2, start + 86399),
                           Scanner.Message(3, start + 86400), Scanner.Message(4, start + 90000)];
            Scanner.Scan(stream, Window.WindowEnd(19792)) == Scanner.ScanResult([1, 2], 3)
  {
    var start := Window.WindowStart(19792);
    var stream := [Scanner.Message(1, start + 32400), Scanner.Message(2, start + 86399),
                   Scanner.Message(3, start + 86400), Scanner.Message(4, start + 90000)];
    var end := Window.WindowEnd(19792);
    assert stream[1..][1..][0].date >= end;
    assert Scanner.Scan(stream[1..][1..], end) == Scanner.ScanResult([], 1);
    assert Scanner.Scan(stream[1..], end) == Scanner.ScanResult([2], 2);
  }

  /** The deletion written with the loop's accumulators: `deleted` and
      `trace` hold what batches before `k` produced. */
  ghost function Finish(bs: seq<seq<int>>, o: Deleter.Oracle, k: nat, deleted: nat, trace: seq<Deleter.Event>): Deleter.Run
    requires k <= |bs|
    decreases |bs| - k
  {
    if k == |bs| then Deleter.Run(Deleter.Count(deleted), trace)
    else
      var events := Deleter.BatchEvents(o, k, bs[k]);
      if Deleter.FateOf(o, k) == Deleter.Escaped then Deleter.Run(Deleter.Aborted(k), trace + events)
      else Finish(bs, o, k + 1, deleted + Deleter.Credit(o, k, bs[k]), trace + events)
  }

  /** Running the remaining batches with accumulators is running them from
      scratch and prefixing what was accumulated. */
  lemma {:induction false} FinishPrefixes(bs: seq<seq<int>>, o: Deleter.Oracle, k: nat, deleted: nat, trace: seq<Deleter.Event>)
    requires k <= |bs|
    ensures var r := Deleter.DeleteBatches(bs, o, k);
            Finish(bs, o, k, deleted, trace) == Deleter.Run(r.verdict.Plus(deleted), trace + r.trace)
    decreases |bs| - k
  {
    if k == |bs| {
      assert trace + [] == trace;
    } else if Deleter.FateOf(o, k) != Deleter.Escaped {
      var events := Deleter.BatchEvents(o, k, bs[k]);
      var rest := Deleter.DeleteBatches(bs, o, k + 1);
      FinishPrefixes(bs, o, k + 1, deleted + Deleter.Credit(o, k, bs[k]), trace + events);
      assert (trace + events) + rest.trace == trace + (events + rest.trace);
    }
  }

  /** The strided loop `range(0, len(ids), 100)` runs once per batch. */
  lemma LoopBounds(ids: seq<int>, k: nat)
    requires k <= |Batching.Batches(ids)|
    ensures k * Batching.BatchSize < |ids| <==> k < |Batching.Batches(ids)|
  {
  }

  /** `delete_messages_on_date`'s scan loop: pull messages in order, `break` at the first
      one dated at or after `end`, append every other id. */
  method ScanLoop(stream: seq<Scanner.Message>, end: int) returns (r: Scanner.ScanResult)
    ensures r == Scanner.Scan(stream, end)
    ensures forall i :: 0 <= i < |r.ids| ==> stream[i].date < end && r.ids[i] == stream[i].id
  {
    var found: seq<int> := [];
    var n := 0;
    while n < |stream|
      invariant n <= |stream|
      invariant found == Scanner.Ids(stream[..n])
      invariant forall i :: 0 <= i < n ==> stream[i].date < end
    {
      if stream[n].date >= end {
        break;
      }
      found := found + [stream[n].id];
      n := n + 1;
    }
    // The message that stopped the loop was pulled from the stream as well.
    var inspected := if n < |stream| then n + 1 else n;
    r := Scanner.ScanResult(found, inspected);
  }

  /** `delete_messages_on_date`'s `try`/`except` block for one batch: the
      request, the flood-wait sleep and resend, or the warning. It reports
      whether the failure escaped, what the batch adds to the counter and
      its events. Only a flood wait followed by a failed resend escapes; the
      batch counts in full unless it escaped or its first request failed
      otherwise; the first event is always the request of the whole batch. */
  method SendBatch(k: nat, batch: seq<int>, o: Deleter.Oracle) returns (escaped: bool, credit: nat, events: seq<Deleter.Event>)
    ensures escaped <==> o(k, Deleter.First).FloodWait? && !o(k, Deleter.Resend).Ok?
    ensures credit == (if escaped || o(k, Deleter.First).Failed? then 0 else |batch|)
    ensures |events| > 0 && events[0] == Deleter.Request(k, batch)
    ensures o(k, Deleter.First).FloodWait? ==>
              events == [Deleter.Request(k, batch), Deleter.Sleep(k, o(k, Deleter.First).seconds), Deleter.Request(k, batch)]
    ensures o(k, Deleter.First).Failed? <==> Deleter.Warning(k) in events
    ensures o(k, Deleter.First).Ok? ==> events == [Deleter.Request(k, batch)]
    ensures o(k, Deleter.First).Failed? ==> events == [Deleter.Request(k, batch), Deleter.Warning(k)]
    ensures escaped <==> Deleter.FateOf(o, k) == Deleter.Escaped
    ensures credit == Deleter.Credit(o, k, batch)
    ensures events == Deleter.BatchEvents(o, k, batch)
  {
    escaped, credit := false, 0;
    match o(k, Deleter.First) {
      case Ok =>
        events := [Deleter.Request(k, batch)];
        credit := |batch|;
      case FloodWait(s) =>
        events := [Deleter.Request(k, batch), Deleter.Sleep(k, s), Deleter.Request(k, batch)];
        if o(k, Deleter.Resend).Ok? {
          credit := |batch|;
        } else {
          escaped := true;
        }
      case Failed =>
        events := [Deleter.Request(k, batch), Deleter.Warning(k)];
    }
  }

  /** One turn of the batch loop at `i = 100 k`: slice `ids[i:i + 100]`,
      which is batch `k`, and send it. */
  method DeleteStep(ids: seq<int>, o: Deleter.Oracle, i: nat, k: nat)
    returns (escaped: bool, credit: nat, events: seq<Deleter.Event>)
    requires i == k * Batching.BatchSize && i < |ids|
    ensures k < |Batching.Batches(ids)|
    ensures Batching.Slice(ids, i, i + Batching.BatchSize) == Batching.Batches(ids)[k]
    ensures escaped <==> Deleter.FateOf(o, k) == Deleter.Escaped
    ensures credit == Deleter.Credit(o, k, Batching.Batches(ids)[k])
    ensures events == Deleter.BatchEvents(o, k, Batching.Batches(ids)[k])
  {
    assert k < |Batching.Batches(ids)| by { LoopBounds(ids, k); }
    var batch := Batching.Slice(ids, i, i + Batching.BatchSize);
    assert batch == Batching.Batches(ids)[k] by { Batching.BatchAt(ids, k); }
    escaped, credit, events := SendBatch(k, batch, o);
  }

  /** `delete_messages_on_date`'s batch loop: `for i in range(0, len(ids), 100)`
      over the slices `ids[i:i + 100]`, counting a batch in full when its
      request or its one resend succeeds, skipping it with a warning on any
      other error, and letting a failed resend escape. The counter
      `deleted` is the running sum of the credited batches. */
  method BatchLoop(ids: seq<int>, o: Deleter.Oracle) returns (run: Deleter.Run)
    ensures run == Finish(Batching.Batches(ids), o, 0, 0, [])
    ensures run.verdict.Count? ==>
              run.verdict.deleted == Deleter.CounterAfter(Batching.Batches(ids), o, |Batching.Batches(ids)|)
  {
    ghost var bs := Batching.Batches(ids);
    var deleted: nat := 0;
    var trace: seq<Deleter.Event> := [];
    var i := 0;
    var k: nat := 0;
    while i < |ids|
      invariant k <= |bs| && i == k * Batching.BatchSize
      invariant Finish(bs, o, k, deleted, trace) == Finish(bs, o, 0, 0, [])
      invariant deleted == Deleter.CounterAfter(bs, o, k)
      decreases |ids| - i
    {
      var escaped, credit, events := DeleteStep(ids, o, i, k);
      if escaped {
        return Deleter.Run(Deleter.Aborted(k), trace + events);
      }
      deleted, trace := deleted + credit, trace + events;
      i := i + Batching.BatchSize;
      k := k + 1;
    }
    assert k == |bs| by { LoopBounds(ids, k); }
    run := Deleter.Run(Deleter.Count(deleted), trace);
  }

  /** The deletion phase as `delete_messages_on_date` runs it: 0 when
      nothing was found, otherwise the batch loop. It computes exactly the
      modelled run. */
  method DeleteLoop(ids: seq<int>, o: Deleter.Oracle) returns (run: Deleter.Run)
    ensures run == DeleteAll(ids, o)
    ensures run.verdict.Count? ==>
              run.verdict.deleted == Deleter.CounterAfter(Batching.Batches(ids), o, |Batching.Batches(ids)|)
  {
    if |ids| == 0 {
      return Deleter.Run(Deleter.Count(0), []);
    }
    run := BatchLoop(ids, o);
    ghost var full := Deleter.DeleteBatches(Batching.Batches(ids), o, 0);
    assert run == full by {
      FinishPrefixes(Batching.Batches(ids), o, 0, 0, []);
      assert [] + full.trace == full.trace;
    }
  }

  /** `delete_messages_on_date` as app.py runs it: the scan, then the
      deletion of what it found. Nothing found means a zero count and no
      request; a normal return never counts more ids than were found. */
  method RunDeleteMessagesOnDate(stream: seq<Scanner.Message>, day: int, o: Deleter.Oracle) returns (r: Report)
    ensures r == DeleteMessagesOnDate(stream, day, o)
    ensures forall i :: 0 <= i < |r.found| ==> Window.DayOf(stream[i].date) <= day && r.found[i] == stream[i].id
    ensures |r.found| == 0 ==> r.run == Deleter.Run(Deleter.Count(0), [])
    ensures r.run.verdict.Count? ==> r.run.verdict.deleted <= |r.found|
  {
    var end := Window.WindowEnd(day);
    var scan := ScanLoop(stream, end);
    var run := DeleteLoop(scan.ids, o);
    DeleteAllAccounting(scan.ids, o);
    r := Report(scan.ids, scan.inspected, run);
  }
}
