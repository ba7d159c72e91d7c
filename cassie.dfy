/** The `Cassie` object: its `pending` table and `finished` list, updated in
    place by `write`'s callback, `pendingExecution` and the
    `finishedProcessing` handler, each proved against the functions of
    `Correlation`. */
module CassieClient {
  import opened Wrappers
  import opened JsStrings
  import opened Queries
  import opened Correlation

  class Cassie {
    /** Server timestamp token to the waiter of the write delayed under it. */
    var pending: map<string, nat>
    /** Tokens whose completion was announced before their write looked. */
    var finished: seq<string>
    /** Every `Deferred` created so far, in order of creation. */
    var waiters: seq<WaiterState>

    /** The object's bookkeeping as a value. */
    ghost function State(): Bookkeeping
      reads this
    {
      Bookkeeping(pending, finished, waiters)
    }

    ghost predicate Valid()
      reads this
    {
      Correlation.Valid(State())
    }

    constructor ()
      ensures pending == map[] && finished == [] && waiters == []
      ensures Valid()
    {
      pending := map[];
      finished := [];
      waiters := [];
    }

    /** `pendingExecution(ts)`: a new waiter, stored under `ts`, replacing
        any earlier one; the invariant survives when `ts` is not finished. */
    method PendingExecution(ts: string) returns (waiter: nat)
      modifies this
      ensures waiter == old(|waiters|)
      ensures pending == old(pending)[ts := waiter]
      ensures finished == old(finished)
      ensures waiters == old(waiters) + [Waiting]
      ensures (State(), Awaiting(waiter)) == Correlation.PendingExecution(old(State()), ts)
      ensures old(Valid()) && ts !in old(finished) ==> Valid()
    {
      if Valid() && ts !in finished {
        PendingExecutionValid(State(), ts);
      }
      waiter := |waiters|;
      waiters := waiters + [Waiting];
      pending := pending[ts := waiter];
    }

    /** One call of `write`: the UPDATE it sends, then its callback on the
        outcome of `execute`, which the caller supplies. */
    method Write(propertyName: string, value: string, outcome: ExecOutcome)
      returns (query: string, status: WriteStatus)
      modifies this
      ensures query == UpdateQuery(propertyName, value)
      ensures (State(), status) == OnWriteResult(old(State()), outcome)
      ensures old(Valid()) && CarriesToken(outcome) ==> Valid()
    {
      query := "UPDATE " + Table + " SET " + InQuotes(ToLower(propertyName)) + "=" + value + " WHERE id='state';";
      if Valid() && CarriesToken(outcome) {
        OnWriteResultValid(State(), outcome);
      }
      if outcome.ExecFailed? {
        // `result.info` throws on the undefined result: the promise never settles.
        status := NeverResolves;
        return;
      }
      var warnings := outcome.warnings;
      if warnings.Some? && |warnings.value| > 0 && warnings.value[0] == "DELAY" {
        if |warnings.value| > 1 && warnings.value[1] in finished {
          var ts := warnings.value[1];
          var index := IndexOf(finished, ts);
          finished := finished[..index] + finished[index + 1..];
          status := ResolvedNow;
        } else {
          var key := if |warnings.value| > 1 then warnings.value[1] else UndefinedKey;
          var waiter := PendingExecution(key);
          status := Awaiting(waiter);
        }
      } else {
        status := ResolvedNow;
      }
    }

    /** The `finishedProcessing` handler: resolve and drop the waiter pending
        under the message's token, or remember the token as finished. */
    method FinishedProcessing(msg: string)
      requires Tracked(State())
      modifies this
      ensures State() == OnFinished(old(State()), ExtractToken(msg))
      ensures old(Valid()) ==> Valid()
    {
      var ts := ExtractToken(msg);
      if Valid() {
        OnFinishedValid(State(), ts);
      }
      ghost var before := State();
      if ts in pending {
        waiters := waiters[pending[ts] := Resolved];
        pending := pending - {ts};
        assert State() == Bookkeeping(before.pending - {ts}, before.finished, before.waiters[before.pending[ts] := Resolved]);
      } else {
        finished := finished + [ts];
        assert State() == before.(finished := before.finished + [ts]);
      }
    }
  }
}
