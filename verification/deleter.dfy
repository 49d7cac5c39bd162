/** The batched deletion with its flood-wait policy.

    Each batch gets one delete request. A success counts the whole batch. A
    flood-wait answer makes the deleter sleep for the mandated number of
    seconds and resend the same batch once; that resend is made outside any
    error handling, so if it fails in any way the failure escapes and the
    whole deletion is aborted. Any other error on the first request skips
    the batch with a warning and the deleter moves on.

    The remote service is an oracle: the outcome of each request, indexed by
    batch number and attempt.
 */
module Deleter {
  import Batching

  /** What one delete request reports. */
  datatype Outcome = Ok | FloodWait(seconds: nat) | Failed

  /** The first request for a batch, or the resend after a flood wait. */
  datatype Attempt = First | Resend

  /** The outcome of every request, by batch index and attempt. */
  type Oracle = (nat, Attempt) -> Outcome

  /** What happens to one batch under the retry policy. */
  datatype Fate = Deleted | Skipped | Escaped

  /** Observable effects, each tagged with the index of its batch. */
  datatype Event =
    | Request(batch: nat, ids: seq<int>)
    | Sleep(batch: nat, seconds: nat)
    | Warning(batch: nat)

  /** The deleted count of a normal return, or the batch whose failed resend
      escaped and ended the deletion. */
  datatype Verdict = Count(deleted: nat) | Aborted(batch: nat)
  {
    /** Adds `n` to a count; an abort stays an abort. */
    function Plus(n: nat): Verdict
    {
      match this
      case Count(d) => Count(d + n)
      case Aborted(_) => this
    }
  }

  /** A verdict together with the events that led to it. */
  datatype Run = Run(verdict: Verdict, trace: seq<Event>)

  /** The fate of batch `j` under the one-resend policy. */
  function FateOf(o: Oracle, j: nat): Fate
  {
    match o(j, First)
    case Ok => Deleted
    case Failed => Skipped
    case FloodWait(_) => if o(j, Resend).Ok? then Deleted else Escaped
  }

  /** The events of processing batch `j`. */
  function BatchEvents(o: Oracle, j: nat, batch: seq<int>): seq<Event>
  {
    match o(j, First)
    case Ok => [Request(j, batch)]
    case Failed => [Request(j, batch), Warning(j)]
    case FloodWait(s) => [Request(j, batch), Sleep(j, s), Request(j, batch)]
  }

  /** What batch `j` adds to the deleted counter: all of it or nothing. */
  function Credit(o: Oracle, j: nat, batch: seq<int>): nat
  {
    if FateOf(o, j) == Deleted then |batch| else 0
  }

  /** Processes batches `k`, `k + 1`, ... in order. */
  function DeleteBatches(bs: seq<seq<int>>, o: Oracle, k: nat): Run
    requires k <= |bs|
    decreases |bs| - k
  {
    if k == |bs| then Run(Count(0), [])
    else
      var events := BatchEvents(o, k, bs[k]);
      if FateOf(o, k) == Escaped then Run(Aborted(k), events)
      else
        var rest := DeleteBatches(bs, o, k + 1);
        Run(rest.verdict.Plus(Credit(o, k, bs[k])), events + rest.trace)
  }

  /** The deletion is aborted exactly when some batch escapes, and then at
      the first such batch. */
  lemma {:induction false} DeleteBatchesVerdict(bs: seq<seq<int>>, o: Oracle, k: nat)
    requires k <= |bs|
    ensures var r := DeleteBatches(bs, o, k);
            && (r.verdict.Count? <==> forall j :: k <= j < |bs| ==> FateOf(o, j) != Escaped)
            && (r.verdict.Aborted? ==>
                  && k <= r.verdict.batch < |bs|
                  && FateOf(o, r.verdict.batch) == Escaped
                  && forall j :: k <= j < r.verdict.batch ==> FateOf(o, j) != Escaped)
    decreases |bs| - k
  {
    if k < |bs| && FateOf(o, k) != Escaped {
      DeleteBatchesVerdict(bs, o, k + 1);
    }
  }

  /** The counter after the first `j` batches, as a running sum. */
  function CounterAfter(bs: seq<seq<int>>, o: Oracle, j: nat): nat
    requires j <= |bs|
  {
    if j == 0 then 0 else CounterAfter(bs, o, j - 1) + Credit(o, j - 1, bs[j - 1])
  }

  /** A normal return from batch `k` on reports exactly what the running
      counter gains over batches `k` to the last. */
  lemma {:induction false} DeleteBatchesAccounting(bs: seq<seq<int>>, o: Oracle, k: nat)
    requires k <= |bs|
    ensures DeleteBatches(bs, o, k).verdict.Count? ==>
              CounterAfter(bs, o, |bs|) == CounterAfter(bs, o, k) + DeleteBatches(bs, o, k).verdict.deleted
    decreases |bs| - k
  {
    if k < |bs| && FateOf(o, k) != Escaped {
      DeleteBatchesAccounting(bs, o, k + 1);
    }
  }

  /** The counter never decreases. */
  lemma {:induction false} CounterMonotone(bs: seq<seq<int>>, o: Oracle, i: nat, j: nat)
    requires i <= j <= |bs|
    ensures CounterAfter(bs, o, i) <= CounterAfter(bs, o, j)
    decreases j - i
  {
    if i < j {
      CounterMonotone(bs, o, i, j - 1);
    }
  }

  /** The counter never exceeds the number of ids in the batches processed
      so far, and reaches it exactly when every one of them was deleted. */
  lemma {:induction false} CounterBounds(bs: seq<seq<int>>, o: Oracle, j: nat)
    requires j <= |bs|
    requires forall i :: 0 <= i < |bs| ==> |bs[i]| > 0
    ensures CounterAfter(bs, o, j) <= |Batching.Concat(bs[..j])|
    ensures CounterAfter(bs, o, j) == |Batching.Concat(bs[..j])| <==> forall i :: 0 <= i < j ==> FateOf(o, i) == Deleted
  {
    if j == 0 {
      assert bs[..0] == [];
    } else {
      CounterBounds(bs, o, j - 1);
      assert bs[..j] == bs[..j - 1] + [bs[j - 1]];
      Batching.ConcatAppend(bs[..j - 1], [bs[j - 1]]);
      assert Batching.Concat([bs[j - 1]]) == bs[j - 1] + Batching.Concat([]);
    }
  }

  /** Every event of batch `j` is tagged `j`, and its requests carry the
      ids of the batch; there are two requests after a flood wait and one
      otherwise. */
  lemma BatchEventsFacts(o: Oracle, j: nat, batch: seq<int>, j': nat)
    ensures var ev := BatchEvents(o, j, batch);
            && (forall i :: 0 <= i < |ev| ==> ev[i].batch == j)
            && (forall i :: 0 <= i < |ev| && ev[i].Request? ==> ev[i].ids == batch)
            && Attempts(ev, j') == (if j' != j then 0 else if o(j, First).FloodWait? then 2 else 1)
  {
    var ev := BatchEvents(o, j, batch);
    match o(j, First)
    case Ok =>
      assert Attempts(ev[1..], j') == 0;
    case Failed =>
      assert Attempts(ev[1..][1..], j') == 0;
    case FloodWait(s) =>
      assert ev[1..][1..] == [Request(j, batch)];
      assert Attempts(ev[1..][1..], j') == (if j' == j then 1 else 0);
      assert ev[1..][0] == Sleep(j, s);
  }

  /** Every event of `t` belongs to one of the batches `k`, `k + 1`, ...,
      and every request carries exactly the ids of its batch. */
  ghost predicate TaggedWithin(bs: seq<seq<int>>, k: nat, t: seq<Event>)
  {
    forall i :: 0 <= i < |t| ==> k <= t[i].batch < |bs| && (t[i].Request? ==> t[i].ids == bs[t[i].batch])
  }

  /** The events of `t` run batch by batch, in batch order. */
  ghost predicate InBatchOrder(t: seq<Event>)
  {
    forall i, i' :: 0 <= i < i' < |t| ==> t[i].batch <= t[i'].batch
  }

  /** No event of `t` belongs to a batch after `a`. */
  ghost predicate NothingAfter(t: seq<Event>, a: nat)
  {
    forall i :: 0 <= i < |t| ==> t[i].batch <= a
  }

  /** The trace never mentions a batch before `k` or past the last batch,
      and every request carries exactly the ids of its batch. */
  lemma {:induction false} TraceBatches(bs: seq<seq<int>>, o: Oracle, k: nat)
    requires k <= |bs|
    ensures TaggedWithin(bs, k, DeleteBatches(bs, o, k).trace)
    decreases |bs| - k
  {
    if k < |bs| {
      BatchEventsFacts(o, k, bs[k], k);
      if FateOf(o, k) != Escaped {
        TraceBatches(bs, o, k + 1);
        var events := BatchEvents(o, k, bs[k]);
        var rest := DeleteBatches(bs, o, k + 1);
        var t := events + rest.trace;
        assert t == DeleteBatches(bs, o, k).trace;
        forall i | 0 <= i < |t|
          ensures k <= t[i].batch < |bs|
          ensures t[i].Request? ==> t[i].ids == bs[t[i].batch]
        {
          if i < |events| {
            assert t[i] == events[i];
          } else {
            assert t[i] == rest.trace[i - |events|];
          }
        }
      }
    }
  }

  /** After an abort nothing more happens: no event mentions a batch past
      the one whose resend failed. */
  lemma {:induction false} TraceStopsAtAbort(bs: seq<seq<int>>, o: Oracle, k: nat)
    requires k <= |bs|
    ensures DeleteBatches(bs, o, k).verdict.Aborted? ==>
              NothingAfter(DeleteBatches(bs, o, k).trace, DeleteBatches(bs, o, k).verdict.batch)
    decreases |bs| - k
  {
    if k < |bs| {
      BatchEventsFacts(o, k, bs[k], k);
      if FateOf(o, k) != Escaped {
        TraceStopsAtAbort(bs, o, k + 1);
        DeleteBatchesVerdict(bs, o, k + 1);
        var events := BatchEvents(o, k, bs[k]);
        var rest := DeleteBatches(bs, o, k + 1);
        var t := events + rest.trace;
        assert t == DeleteBatches(bs, o, k).trace;
        forall i | |events| <= i < |t|
          ensures t[i] == rest.trace[i - |events|]
        {
        }
      }
    }
  }

  /** The trace runs batch by batch, in batch order: deletion is sequential. */
  lemma {:induction false} TraceOrdered(bs: seq<seq<int>>, o: Oracle, k: nat)
    requires k <= |bs|
    ensures InBatchOrder(DeleteBatches(bs, o, k).trace)
    decreases |bs| - k
  {
    if k < |bs| {
      BatchEventsFacts(o, k, bs[k], k);
      if FateOf(o, k) != Escaped {
        TraceOrdered(bs, o, k + 1);
        TraceBatches(bs, o, k + 1);
        var events := BatchEvents(o, k, bs[k]);
        var rest := DeleteBatches(bs, o, k + 1);
        var t := events + rest.trace;
        assert t == DeleteBatches(bs, o, k).trace;
        forall i, i' | 0 <= i < i' < |t|
          ensures t[i].batch <= t[i'].batch
        {
          if i' < |events| {
            assert t[i] == events[i] && t[i'] == events[i'];
          } else if i < |events| {
            assert t[i] == events[i] && t[i'] == rest.trace[i' - |events|];
          } else {
            assert t[i] == rest.trace[i - |events|] && t[i'] == rest.trace[i' - |events|];
          }
        }
      }
    }
  }

  /** Number of delete requests for batch `j` in a trace. */
  function Attempts(t: seq<Event>, j: nat): nat
  {
    if |t| == 0 then 0
    else (if t[0].Request? && t[0].batch == j then 1 else 0) + Attempts(t[1..], j)
  }

  lemma {:induction false} AttemptsAppend(a: seq<Event>, b: seq<Event>, j: nat)
    ensures Attempts(a + b, j) == Attempts(a, j) + Attempts(b, j)
  {
    if |a| == 0 {
      assert a + b == b;
    } else {
      assert (a + b)[1..] == a[1..] + b;
      AttemptsAppend(a[1..], b, j);
    }
  }

  lemma {:induction false} AttemptsOther(t: seq<Event>, j: nat)
    requires forall i :: 0 <= i < |t| ==> t[i].batch != j
    ensures Attempts(t, j) == 0
  {
    if |t| > 0 {
      AttemptsOther(t[1..], j);
    }
  }

  /** A batch the deletion reaches gets one request, or two when the first
      was answered with a flood wait; a batch it does not reach gets none. */
  lemma {:induction false} AttemptsPerBatch(bs: seq<seq<int>>, o: Oracle, k: nat, j: nat)
    requires k <= |bs|
    ensures var r := DeleteBatches(bs, o, k);
            var reached := k <= j < |bs| && (r.verdict.Count? || j <= r.verdict.batch);
            Attempts(r.trace, j) == (if !reached then 0 else if o(j, First).FloodWait? then 2 else 1)
    decreases |bs| - k
  {
    if k < |bs| {
      var events := BatchEvents(o, k, bs[k]);
      BatchEventsFacts(o, k, bs[k], j);
      if FateOf(o, k) != Escaped {
        var rest := DeleteBatches(bs, o, k + 1);
        AttemptsPerBatch(bs, o, k + 1, j);
        AttemptsAppend(events, rest.trace, j);
        assert DeleteBatches(bs, o, k).trace == events + rest.trace;
        if j == k {
          DeleteBatchesVerdict(bs, o, k + 1);
          TraceBatches(bs, o, k + 1);
          assert forall i :: 0 <= i < |rest.trace| ==> rest.trace[i].batch != j by {
            assert TaggedWithin(bs, k + 1, rest.trace);
          }
          AttemptsOther(rest.trace, j);
        }
      }
    }
  }

  /** Event `i` of `t`, if a sleep, lasts the flood wait the first request
      of its batch was answered with and sits between that request and the
      resend of the same ids. */
  ghost predicate SleepObeysPolicy(bs: seq<seq<int>>, o: Oracle, t: seq<Event>, i: nat)
    requires i < |t|
  {
    t[i].Sleep? ==>
      && o(t[i].batch, First) == FloodWait(t[i].seconds)
      && 0 < i < |t| - 1
      && t[i].batch < |bs|
      && t[i - 1] == Request(t[i].batch, bs[t[i].batch])
      && t[i + 1] == Request(t[i].batch, bs[t[i].batch])
  }

  /** Event `i` of `t`, if a warning, follows a first request of its batch
      that failed with an error other than a flood wait. */
  ghost predicate WarningObeysPolicy(bs: seq<seq<int>>, o: Oracle, t: seq<Event>, i: nat)
    requires i < |t|
  {
    t[i].Warning? ==>
      && o(t[i].batch, First) == Failed
      && 0 < i
      && t[i].batch < |bs|
      && t[i - 1] == Request(t[i].batch, bs[t[i].batch])
  }

  /** Every sleep and every warning of `t` is where the policy puts it. */
  ghost predicate ObeysPolicy(bs: seq<seq<int>>, o: Oracle, t: seq<Event>)
  {
    forall i :: 0 <= i < |t| ==> SleepObeysPolicy(bs, o, t, i) && WarningObeysPolicy(bs, o, t, i)
  }

  /** Every sleep and every warning in the trace is where the policy puts
      it: a sleep of the mandated length between a flood-waited request and
      its one resend, a warning right after a request that failed otherwise. */
  lemma {:induction false} TracePolicy(bs: seq<seq<int>>, o: Oracle, k: nat)
    requires k <= |bs|
    ensures ObeysPolicy(bs, o, DeleteBatches(bs, o, k).trace)
    decreases |bs| - k
  {
    TraceBatches(bs, o, k);
    if k < |bs| && FateOf(o, k) != Escaped {
      var events := BatchEvents(o, k, bs[k]);
      TracePolicy(bs, o, k + 1);
      var rest := DeleteBatches(bs, o, k + 1);
      var t := events + rest.trace;
      assert t == DeleteBatches(bs, o, k).trace;
      forall i | 0 <= i < |t|
        ensures SleepObeysPolicy(bs, o, t, i) && WarningObeysPolicy(bs, o, t, i)
      {
        if i < |events| {
          assert t[i] == events[i];
          if 0 < i {
            assert t[i - 1] == events[i - 1];
          }
          if i + 1 < |events| {
            assert t[i + 1] == events[i + 1];
          }
        } else {
          var n := i - |events|;
          assert SleepObeysPolicy(bs, o, rest.trace, n) && WarningObeysPolicy(bs, o, rest.trace, n);
          assert t[i] == rest.trace[n];
          if 0 < n {
            assert t[i - 1] == rest.trace[n - 1];
          }
          if n + 1 < |rest.trace| {
            assert t[i + 1] == rest.trace[n + 1];
          }
        }
      }
    }
  }
}
