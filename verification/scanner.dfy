/** The window scan: walk a forward-ordered message stream and collect the
    ids of the messages dated before the window end, stopping at the first
    message dated at or after it.
 */
module Scanner {
  import Window

  /** A message as the stream yields it: its id and its UTC timestamp. */
  datatype Message = Message(id: int, date: int)

  /** The collected ids, in stream order, and how many messages the scan
      pulled from the stream (the message that stopped it included). */
  datatype ScanResult = ScanResult(ids: seq<int>, inspected: nat)

  /** The ids of a sequence of messages, in order. */
  function Ids(ms: seq<Message>): (r: seq<int>)
    ensures |r| == |ms|
    ensures forall i :: 0 <= i < |ms| ==> r[i] == ms[i].id
  {
    seq(|ms|, i requires 0 <= i < |ms| => ms[i].id)
  }

  /** The scan loop: append ids until the stream ends or a message dated at
      or after `end` is met, which is pulled but not collected. The result is
      the longest prefix of the stream dated strictly before `end`, and the
      scan pulls exactly one message past that prefix unless the stream is
      exhausted. */
  function Scan(stream: seq<Message>, end: int): (r: ScanResult)
    ensures |r.ids| <= |stream|
    ensures r.ids == Ids(stream[..|r.ids|])
    ensures forall i :: 0 <= i < |r.ids| ==> stream[i].date < end
    ensures |r.ids| < |stream| ==> stream[|r.ids|].date >= end && r.inspected == |r.ids| + 1
    ensures |r.ids| == |stream| ==> r.inspected == |stream|
  {
    if |stream| == 0 then ScanResult([], 0)
    else if stream[0].date >= end then ScanResult([], 1)
    else
      var rest := Scan(stream[1..], end);
      assert stream[1..][..|rest.ids|] == stream[1..|rest.ids| + 1];
      ScanResult([stream[0].id] + rest.ids, rest.inspected + 1)
  }

  /** Messages are yielded oldest first. */
  ghost predicate Chronological(ms: seq<Message>)
  {
    forall i, j :: 0 <= i < j < |ms| ==> ms[i].date <= ms[j].date
  }

  /** The messages dated inside the window of `day`, in stream order. */
  function InDay(ms: seq<Message>, day: int): seq<Message>
  {
    if |ms| == 0 then []
    else if Window.InWindow(day, ms[0].date) then [ms[0]] + InDay(ms[1..], day)
    else InDay(ms[1..], day)
  }

  /** When every message is dated at or after `bound`, none is inside a window
      ending at or before it. */
  lemma {:induction false} InDayEmptyPastEnd(ms: seq<Message>, day: int)
    requires forall i :: 0 <= i < |ms| ==> ms[i].date >= Window.WindowEnd(day)
    ensures InDay(ms, day) == []
  {
    if |ms| > 0 {
      InDayEmptyPastEnd(ms[1..], day);
    }
  }

  /** For a chronological stream that starts at the window start, the scan
      collects the ids of exactly the messages dated inside the day window,
      in stream order, and of no others. */
  lemma {:induction false} ScanSelectsWindow(stream: seq<Message>, day: int)
    requires Chronological(stream)
    requires forall i :: 0 <= i < |stream| ==> stream[i].date >= Window.WindowStart(day)
    ensures Scan(stream, Window.WindowEnd(day)).ids == Ids(InDay(stream, day))
  {
    var end := Window.WindowEnd(day);
    if |stream| == 0 {
    } else if stream[0].date >= end {
      assert forall i :: 0 <= i < |stream[1..]| ==> stream[1..][i].date >= end by {
        forall i | 0 <= i < |stream[1..]|
          ensures stream[1..][i].date >= end
        {
          assert stream[0].date <= stream[i + 1].date;
        }
      }
      InDayEmptyPastEnd(stream[1..], day);
    } else {
      ScanSelectsWindow(stream[1..], day);
    }
  }

  /** A message dated exactly at the window end is never collected, and
      neither is anything after it. */
  lemma ScanExcludesEnd(stream: seq<Message>, end: int, k: nat)
    requires k < |stream| && stream[k].date == end
    ensures |Scan(stream, end).ids| <= k
    ensures Scan(stream, end).inspected <= k + 1
  {
  }

  /** Messages after the one that stopped the scan are never inspected: any
      stream that agrees on the inspected prefix gives the same scan. */
  lemma {:induction false} ScanIgnoresUninspected(stream: seq<Message>, other: seq<Message>, end: int)
    requires |Scan(stream, end).ids| < |stream|
    requires Scan(stream, end).inspected <= |other|
    requires other[..Scan(stream, end).inspected] == stream[..Scan(stream, end).inspected]
    ensures Scan(other, end) == Scan(stream, end)
  {
    var n := Scan(stream, end).inspected;
    assert other[0] == other[..n][0] == stream[..n][0] == stream[0];
    if stream[0].date < end {
      assert other[1..][..n - 1] == other[..n][1..] == stream[..n][1..] == stream[1..][..n - 1];
      ScanIgnoresUninspected(stream[1..], other[1..], end);
    }
  }
}
