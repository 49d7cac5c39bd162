# Deleting a channel's messages of one day, modelled in Dafny

This project models `delete_messages_on_date` in `app.py`, the core of a small
Streamlit application. The application deletes every message a Telegram
channel received on one calendar day. The function works in two phases:

1. **Window scan.** It builds the UTC window `[midnight of the date, midnight
   of the next day)`. It walks the channel's messages oldest first, starting at
   the window start, and collects message ids. It stops at the first message
   dated at or after the window end.
2. **Batched deletion.** It cuts the collected ids into consecutive slices of
   100. It sends one delete request per slice and counts each slice that the
   request deletes. On a flood-wait error it sleeps for the mandated number of
   seconds and resends the same slice once. That resend runs inside the
   `except FloodWaitError` handler, so a failed resend is not caught by the
   sibling `except Exception` clause: it escapes and aborts the remaining
   batches. Any other error on the first request skips the slice with a
   warning.

Modelling choices:

- Dates are integer day numbers (days since 1970-01-01). Timestamps are integer
  UTC seconds.
- The message stream is a `seq<Message>` of `(id, date)` pairs.
- The remote service is an oracle. It gives the outcome of every delete request
  (`Ok`, `FloodWait(s)` or `Failed`), indexed by batch number and attempt
  (`First` or `Resend`).
- The function's result is a `Verdict`. `Count(n)` is a normal return of `n`.
  `Aborted(j)` means the resend of batch `j` raised. The verdict comes with a
  trace of `Request`, `Sleep` and `Warning` events.

Modules:

- `Window` (`window.dfy`): the day window and its relation to the UTC day of a timestamp.
- `Scanner` (`scanner.dfy`): the scan as a longest-prefix cut of the stream.
- `Batching` (`batching.dfy`): the slices of 100 and Python's clamped slicing.
- `Deleter` (`deleter.dfy`): the per-batch retry policy, the running counter and the event trace.
- `DeleteOnDate` (`delete_on_date.dfy`): both phases together. It has a
  functional definition and `delete_messages_on_date`'s two loops written as methods, and the
  methods are proved equal to the functional definition.

A failed resend at app.py:96 is raised inside the `except FloodWaitError`
handler. The sibling `except Exception` does not catch it, so it propagates out
of the function and no later batch is attempted
(`DeleteOnDate.ResendFailureAborts`).

## Model

| member | source | states |
|---|---|---|
| Window.WindowStart | app.py:59 | the window start is a whole multiple of 86400 s whose day number is the target date, i.e. midnight UTC of that date |
| Window.WindowEnd | app.py:60 | the window end lies exactly one day (86400 s) after the start and is the start of the next date's window |
| Window.InWindowIffSameDay | app.py:59-60 | a timestamp is inside `[start, end)` if and only if its UTC calendar day is the target date |
| Window.EndBelongsToNextDay | app.py:60 | the end instant itself is outside the window and inside the next day's window; one second earlier is inside |
| Scanner.Scan | app.py:67-74 | the collected ids are the ids, in stream order, of the longest prefix whose dates are all before the end; the scan pulls exactly one message past that prefix, or the whole stream if it is exhausted |
| Scanner.ScanSelectsWindow | app.py:59-74 | for a chronological stream starting at the window start, the scan collects the ids of exactly the messages inside the day window, and no others |
| Scanner.ScanExcludesEnd | app.py:72-73 | a message dated exactly at the window end is not collected, and neither is anything after it |
| Scanner.ScanIgnoresUninspected | app.py:72-73 | after the `break`, the rest of the stream is never inspected: any stream that agrees on the inspected prefix yields the same scan |
| Batching.Batches | app.py:85-86 | each batch is non-empty with at most 100 ids, and there are ceil(n/100) of them, one per step of `range(0, n, 100)` |
| Batching.BatchesPartition | app.py:85-86 | the batches partition the ids: their concatenation is the ids, so nothing is dropped, duplicated or reordered |
| Batching.BatchesAreStrided | app.py:85-86 | the batches equal the slices `message_ids[i:i + 100]` that app.py's loop takes at i = 0, 100, 200, …, written as a comprehension |
| Batching.BatchAt | app.py:85-86 | batch `k` is the slice `ids[100k : 100k + 100]` |
| Batching.BatchesFullButLast | app.py:85-86 | every batch except the last holds exactly 100 ids |
| Deleter.DeleteBatchesVerdict | app.py:85-99 | the deletion returns normally exactly when no batch's flood-wait resend fails; an abort names the first batch whose resend failed |
| Deleter.DeleteBatchesAccounting | app.py:84-99 | a normal return reports exactly the sum of the full lengths of the batches whose first request or flood-wait resend succeeded |
| Deleter.CounterBounds | app.py:84-99 | the counter never exceeds the number of ids sent so far and equals it exactly when every batch so far was deleted |
| Deleter.BatchEventsFacts | app.py:88-99 | a batch's events all carry its index, and its requests carry its ids: two requests after a flood wait, one otherwise |
| Deleter.TraceBatches | app.py:85-99 | every event belongs to a batch that was processed, and every request sends exactly the ids of its batch |
| Deleter.TraceStopsAtAbort | app.py:93-96 | after a failed resend nothing more happens: no event belongs to a batch past the aborting one |
| Deleter.TraceOrdered | app.py:85-88 | batches are processed one after another in order: event batch indices never decrease along the trace |
| Deleter.AttemptsPerBatch | app.py:87-97 | a reached batch gets exactly two requests if its first request hit a flood wait and one otherwise; an unreached batch gets none |
| Deleter.TracePolicy | app.py:93-99 | every sleep lasts the flood wait's mandated seconds and sits between the flood-waited request and the resend of the same ids; every warning follows a first request that failed with another error |
| DeleteOnDate.DeleteAllAccounting | app.py:81-101 | a normal return reports at most the number of ids found, all of them exactly when every batch was deleted, and is a normal return exactly when no resend failed |
| DeleteOnDate.DeleteAllRequests | app.py:85-88 | every delete request sends a non-empty slice `ids[100b : 100b + 100]` of at most 100 ids |
| DeleteOnDate.DeleteAllAttempts | app.py:93-97 | no batch is sent more than twice, and twice only after a flood wait |
| DeleteOnDate.ResendFailureAborts | app.py:93-98 | if a batch's flood-wait resend fails, the function aborts at that batch after two requests, and no later batch is ever requested |
| DeleteOnDate.FailedBatchSkipped | app.py:98-99 | a non-flood error skips only that batch: it contributes nothing to the counter, does not abort, and every later batch is still attempted unless a later resend fails |
| DeleteOnDate.ScanExampleDay | app.py:72-73 | on 2024-03-10, messages at 09:00 and 23:59:59 are collected; the message at midnight of the next day is not, and the scan stops there |
| DeleteOnDate.ScanLoop | app.py:62-74 | `delete_messages_on_date`'s scan loop with its `break` computes the longest-prefix scan; every collected id comes from a message dated before the end |
| DeleteOnDate.SendBatch | app.py:87-99 | one pass of the try/except, stated over the remote answers: it escapes exactly when a flood wait is followed by a failed resend; it credits the full batch unless it escaped or the first request failed with another error; its first event is the request of the whole batch; after a flood wait the events are request, sleep of the mandated seconds, resend of the same ids; a warning is emitted exactly when the first request failed otherwise |
| DeleteOnDate.DeleteStep | app.py:86-99 | at i = 100k < len(ids) the slice `ids[i:i + 100]` is batch k, and sending it escapes, credits and emits exactly what the modelled run does for batch k |
| DeleteOnDate.FinishPrefixes | app.py:84-99 | running the remaining batches with the loop's accumulators `deleted` and the events so far gives the run from scratch with the count added and the events prefixed, so the loop and the recursive definition agree |
| DeleteOnDate.BatchLoop | app.py:84-99 | the strided batch loop, with its try/except structure, returns exactly the run of the batches computed with the loop's own accumulators, and its `deleted` variable is after every batch the running sum of the credited batch lengths (loop invariant), so a normal return reports that sum over all batches |
| DeleteOnDate.DeleteLoop | app.py:81-101 | the deletion phase (return 0 when nothing was found, otherwise the batch loop) produces exactly the modelled run: the same verdict and the same events; a normal return reports the running sum over all batches |
| DeleteOnDate.RunDeleteMessagesOnDate | app.py:58-101 | the whole function is the scan followed by the deletion; with nothing found it returns 0 and issues no request, and a normal return counts at most the ids found |

## Left out

- Streamlit UI, session state, login and connection helpers (`create_client`, `send_code_request`, `sign_in_client`, `get_entity`) and `run_async`: presentation and network plumbing with no logic to state.
- Progress reporting: the every-20-messages scan notice, the found-count message, the progress bar and the per-batch text. These are observable output only. The percentage is computed with float division (`int((deleted/len)*100)`) and is not modelled.
- `asyncio.sleep`: modelled only as a `Sleep(batch, seconds)` event in the trace. No time passes.
- Telethon's `iter_messages(reverse=True, offset_date=start)`: the stream is an input. It is assumed to be oldest first and to start at the window start (`Scanner.ScanSelectsWindow` requires both). Whether the library yields a message dated exactly at the offset is library behaviour and is outside this model.
- Stream failures during the scan propagate out of `delete_messages_on_date`. The model has no failing stream.
- Exceptions other than `Exception` subclasses (such as a cancellation) raised by a first request are not modelled.
- The idempotence of deleting an already deleted message is remote-service behaviour. The oracle can return any outcome for any request.
- Calendar dates (year, month, day) are represented by their day number. Python's `datetime.combine` and the proleptic Gregorian calendar conversion are not modelled.
