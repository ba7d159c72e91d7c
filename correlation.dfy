/** The delayed-write bookkeeping of `Cassie`, as values: the `pending` table
    from server timestamp token to waiter, the `finished` list of tokens whose
    completion came first, and the waiters (the `Deferred`s) the writes hold.
    Each operation is one atomic check-then-act step. */
module Correlation {
  import opened Wrappers
  import opened JsStrings

  /** A `Deferred` a delayed write waits on. */
  datatype WaiterState = Waiting | Resolved

  /** `pending`, `finished` and the waiters created so far; a waiter is
      named by its position in `waiters`, the order of creation. */
  datatype Bookkeeping = Bookkeeping(pending: map<string, nat>, finished: seq<string>, waiters: seq<WaiterState>)

  /** What `execute` hands to `write`'s callback: `undefined` after a failed
      query, otherwise a result whose `info.warnings` may be absent. */
  datatype ExecOutcome = ExecFailed | Executed(warnings: Option<seq<string>>)

  /** `warnings[1]`: the timestamp token, or `undefined` when the marker
      comes alone. */
  datatype DelayToken = Token(ts: string) | Undefined

  /** How a call to `write` stands once its callback has run: resolved
      already, waiting on a waiter, or never to resolve because the
      callback threw on an undefined result. */
  datatype WriteStatus = ResolvedNow | Awaiting(waiter: nat) | NeverResolves

  /** The key JavaScript uses when `undefined` indexes an object. */
  const UndefinedKey: string := "undefined"

  /** `warnings && warnings[0] == "DELAY"`, and then `warnings[1]`. */
  function DelayOf(warnings: Option<seq<string>>): (d: Option<DelayToken>)
    ensures d.Some? <==> warnings.Some? && |warnings.value| > 0 && warnings.value[0] == "DELAY"
    ensures d.Some? ==> (d.value.Token? <==> |warnings.value| > 1)
    ensures d.Some? && d.value.Token? ==> d.value.ts == warnings.value[1]
  {
    match warnings
    case None => None
    case Some(w) =>
      if |w| > 0 && w[0] == "DELAY" then Some(if |w| > 1 then Token(w[1]) else Undefined)
      else None
  }

  /** A write that the server reported as delayed under token `ts`. */
  predicate DelayedWith(outcome: ExecOutcome, ts: string) {
    outcome.Executed? && DelayOf(outcome.warnings) == Some(Token(ts))
  }

  /** The delay marker comes with its token. */
  predicate CarriesToken(outcome: ExecOutcome) {
    !(outcome.Executed? && DelayOf(outcome.warnings) == Some(Undefined))
  }

  /** `msg.slice(msg.indexOf(' ') + 1)`: the text after the first space, or
      the whole message when it has none. */
  function ExtractToken(msg: string): (ts: string)
    ensures ' ' !in msg ==> ts == msg
    ensures ' ' in msg ==> exists k :: 0 <= k < |msg| && msg[k] == ' ' && ' ' !in msg[..k] && ts == msg[k + 1..]
  {
    var i := IndexOf(msg, ' ');
    msg[i + 1..]
  }

  /** A notification built as `<word> <token>` yields back its token. */
  lemma ExtractTokenOfMessage(word: string, ts: string)
    requires ' ' !in word
    ensures ExtractToken(word + " " + ts) == ts
  {
    var msg := word + " " + ts;
    assert msg[..|word|] == word;
    assert msg[|word|] == ' ';
    assert msg[|word| + 1..] == ts;
  }

  /** Every pending token names a waiter that exists. */
  predicate Tracked(b: Bookkeeping) {
    forall t :: t in b.pending ==> b.pending[t] < |b.waiters|
  }

  /** The protocol's invariant: no token is both pending and finished; every
      pending token names its own waiter, and that waiter is still waiting. */
  predicate Valid(b: Bookkeeping) {
    && Tracked(b)
    && (forall t :: t in b.pending ==> t !in b.finished)
    && (forall t :: t in b.pending ==> b.waiters[b.pending[t]] == Waiting)
    && (forall t, u :: t in b.pending && u in b.pending && t != u ==> b.pending[t] != b.pending[u])
  }

  /** The starting state: nothing pending, nothing finished. */
  lemma InitialValid()
    ensures Valid(Bookkeeping(map[], [], []))
  {
  }

  /** Whether a call to `write` with this status has resolved in `b`. */
  predicate WriteResolved(b: Bookkeeping, status: WriteStatus) {
    || status.ResolvedNow?
    || (status.Awaiting? && status.waiter < |b.waiters| && b.waiters[status.waiter] == Resolved)
  }

  /** `pendingExecution(key)`: a new waiter, stored under `key`. */
  function PendingExecution(b: Bookkeeping, key: string): (r: (Bookkeeping, WriteStatus))
    ensures r.1 == Awaiting(|b.waiters|)
    ensures r.0.waiters == b.waiters + [Waiting]
  {
    var w := |b.waiters|;
    (Bookkeeping(b.pending[key := w], b.finished, b.waiters + [Waiting]), Awaiting(w))
  }

  /** The late check of `write` once the result says the write was delayed:
      a token already finished resolves the write at once and leaves
      `finished` once; otherwise the write waits on a new waiter filed under
      its token, or under `undefined` when the marker came without one. */
  function LateCheck(b: Bookkeeping, token: DelayToken): (r: (Bookkeeping, WriteStatus))
    ensures r.1.ResolvedNow? <==> token.Token? && token.ts in b.finished
    ensures r.1.ResolvedNow? ==>
      && r.0.pending == b.pending && r.0.waiters == b.waiters
      && multiset(r.0.finished) == multiset(b.finished) - multiset{token.ts}
    ensures !r.1.ResolvedNow? ==>
      var key := if token.Token? then token.ts else UndefinedKey;
      && r.1 == Awaiting(|b.waiters|)
      && r.0.pending == b.pending[key := |b.waiters|]
      && r.0.finished == b.finished
      && r.0.waiters == b.waiters + [Waiting]
  {
    match token
    case Undefined => PendingExecution(b, UndefinedKey)
    case Token(ts) =>
      if ts in b.finished then
        var index := IndexOf(b.finished, ts);
        assert b.finished == b.finished[..index] + [ts] + b.finished[index + 1..];
        (b.(finished := b.finished[..index] + b.finished[index + 1..]), ResolvedNow)
      else PendingExecution(b, ts)
  }

  /** `write`'s callback on the outcome of `execute`: a failed query changes
      nothing and never resolves, a result without the delay marker resolves
      at once, and a delayed one goes through the late check. No existing
      waiter changes. */
  function OnWriteResult(b: Bookkeeping, outcome: ExecOutcome): (r: (Bookkeeping, WriteStatus))
    ensures r.1.NeverResolves? <==> outcome.ExecFailed?
    ensures outcome.ExecFailed? ==> r.0 == b
    ensures outcome.Executed? && DelayOf(outcome.warnings).None? ==> r == (b, ResolvedNow)
    ensures outcome.Executed? && DelayOf(outcome.warnings).Some? ==> r == LateCheck(b, DelayOf(outcome.warnings).value)
    ensures b.waiters <= r.0.waiters
  {
    match outcome
    case ExecFailed => (b, NeverResolves)
    case Executed(warnings) =>
      match DelayOf(warnings)
      case None => (b, ResolvedNow)
      case Some(token) => LateCheck(b, token)
  }

  /** The `finishedProcessing` handler for token `ts`. */
  function OnFinished(b: Bookkeeping, ts: string): (r: Bookkeeping)
    requires Tracked(b)
    ensures Tracked(r)
  {
    if ts in b.pending then
      Bookkeeping(b.pending - {ts}, b.finished, b.waiters[b.pending[ts] := Resolved])
    else
      b.(finished := b.finished + [ts])
  }

  // ---------------------------------------------------------------------
  // The paths of one write

  /** A failed `execute` leaves everything as it was and the write hangs. */
  lemma FailurePath(b: Bookkeeping)
    ensures OnWriteResult(b, ExecFailed) == (b, NeverResolves)
  {
  }

  /** Without the delay marker nothing changes and the write resolves. */
  lemma NoDelayPath(b: Bookkeeping, warnings: Option<seq<string>>)
    requires warnings.None? || |warnings.value| == 0 || warnings.value[0] != "DELAY"
    ensures OnWriteResult(b, Executed(warnings)) == (b, ResolvedNow)
  {
  }

  /** Early finish: the write resolves at once, the first occurrence of its
      token leaves `finished`, the rest keep their order, and `pending` and
      the waiters are untouched. */
  lemma EarlyFinishPath(b: Bookkeeping, outcome: ExecOutcome, ts: string)
    requires DelayedWith(outcome, ts)
    requires ts in b.finished
    ensures var (b', status) := OnWriteResult(b, outcome);
      && status == ResolvedNow
      && b'.pending == b.pending && b'.waiters == b.waiters
      && |b'.finished| == |b.finished| - 1
      && multiset(b'.finished) == multiset(b.finished) - multiset{ts}
      && exists i :: 0 <= i < |b.finished| && b.finished[i] == ts && ts !in b.finished[..i]
           && b'.finished == b.finished[..i] + b.finished[i + 1..]
  {
    var f := b.finished;
    var i := IndexOf(f, ts);
    assert f == f[..i] + [ts] + f[i + 1..];
    assert multiset(f) == multiset(f[..i]) + multiset{ts} + multiset(f[i + 1..]);
  }

  /** Late: `finished` stays as it was, the token now names a fresh waiter
      (replacing any earlier entry), and the write is not yet resolved. */
  lemma LatePath(b: Bookkeeping, outcome: ExecOutcome, ts: string)
    requires DelayedWith(outcome, ts)
    requires ts !in b.finished
    ensures var (b', status) := OnWriteResult(b, outcome);
      && status == Awaiting(|b.waiters|)
      && b'.finished == b.finished
      && b'.pending == b.pending[ts := |b.waiters|]
      && b'.waiters == b.waiters + [Waiting]
      && !WriteResolved(b', status)
  {
  }

  /** Notification: a pending token's waiter is resolved and its entry
      removed; an unknown token is appended to `finished`. */
  lemma NotificationPath(b: Bookkeeping, ts: string)
    requires Tracked(b)
    ensures var b' := OnFinished(b, ts);
      && (ts in b.pending ==>
            && b'.pending == b.pending - {ts}
            && b'.finished == b.finished
            && |b'.waiters| == |b.waiters|
            && b'.waiters[b.pending[ts]] == Resolved)
      && (ts !in b.pending ==> b'.pending == b.pending && b'.finished == b.finished + [ts] && b'.waiters == b.waiters)
  {
  }

  // ---------------------------------------------------------------------
  // The invariant

  /** Removing one element of a list keeps only elements of the list. */
  lemma RemovedFrom(f: seq<string>, i: nat, t: string)
    requires i < |f|
    requires t in f[..i] + f[i + 1..]
    ensures t in f
  {
    var g := f[..i] + f[i + 1..];
    var k :| 0 <= k < |g| && g[k] == t;
    if k < i {
      assert f[k] == t;
    } else {
      assert f[k + 1] == t;
    }
  }

  /** Filing a fresh waiter under a key that is not finished keeps the
      invariant: the new waiter is waiting and no other key names it. */
  lemma PendingExecutionValid(b: Bookkeeping, key: string)
    requires Valid(b)
    requires key !in b.finished
    ensures Valid(PendingExecution(b, key).0)
  {
    var b' := PendingExecution(b, key).0;
    assert b'.pending == b.pending[key := |b.waiters|];
    forall t | t in b'.pending ensures b'.pending[t] < |b'.waiters| && b'.waiters[b'.pending[t]] == Waiting {
      if t != key {
        assert b'.waiters[b.pending[t]] == b.waiters[b.pending[t]];
      }
    }
  }

  /** A write callback keeps the invariant, provided the delay marker
      carries its token. */
  lemma OnWriteResultValid(b: Bookkeeping, outcome: ExecOutcome)
    requires Valid(b)
    requires CarriesToken(outcome)
    ensures Valid(OnWriteResult(b, outcome).0)
  {
    if outcome.Executed? && DelayOf(outcome.warnings).Some? {
      var ts := DelayOf(outcome.warnings).value.ts;
      var b' := OnWriteResult(b, outcome).0;
      if ts in b.finished {
        var i := IndexOf(b.finished, ts);
        forall t | t in b'.pending ensures t !in b'.finished {
          if t in b'.finished {
            RemovedFrom(b.finished, i, t);
          }
        }
      } else {
        PendingExecutionValid(b, ts);
      }
    }
  }

  /** The notification handler keeps the invariant. */
  lemma OnFinishedValid(b: Bookkeeping, ts: string)
    requires Valid(b)
    ensures Valid(OnFinished(b, ts))
  {
    var b' := OnFinished(b, ts);
    if ts in b.pending {
      forall t | t in b'.pending ensures b'.waiters[b'.pending[t]] == Waiting {
        assert b.pending[t] != b.pending[ts];
      }
    }
  }

  /** A delay marker without its token is stored under the key `undefined`
      without consulting `finished`: when a notification whose token is the
      text `undefined` came first, that token ends up both pending and
      finished. */
  lemma MissingTokenBreaksExclusion(b: Bookkeeping)
    requires UndefinedKey in b.finished
    ensures var b' := OnWriteResult(b, Executed(Some(["DELAY"]))).0;
      UndefinedKey in b'.pending && UndefinedKey in b'.finished && !Valid(b')
  {
    var b' := OnWriteResult(b, Executed(Some(["DELAY"]))).0;
    assert UndefinedKey in b'.pending;
  }

  // ---------------------------------------------------------------------
  // Resolution

  /** A write callback never resolves a waiter: the existing waiters stay as
      they were and at most a new, waiting one is added. */
  lemma OnWriteResultResolvesNone(b: Bookkeeping, outcome: ExecOutcome)
    ensures var b' := OnWriteResult(b, outcome).0;
      && b.waiters <= b'.waiters
      && forall i :: |b.waiters| <= i < |b'.waiters| ==> b'.waiters[i] == Waiting
  {
  }

  /** A notification resolves at most one waiter, the one pending under its
      token, and only one that was still waiting: no waiter is resolved twice. */
  lemma OnFinishedResolvesAtMostOne(b: Bookkeeping, ts: string)
    requires Valid(b)
    ensures var b' := OnFinished(b, ts);
      && |b'.waiters| == |b.waiters|
      && forall i :: 0 <= i < |b.waiters| && b'.waiters[i] != b.waiters[i] ==>
           ts in b.pending && i == b.pending[ts] && b.waiters[i] == Waiting && b'.waiters[i] == Resolved
  {
  }

  /** Notification first, then the delayed write: the write resolves at once
      and the bookkeeping is back where it started. */
  lemma NotifyThenWrite(b: Bookkeeping, outcome: ExecOutcome, ts: string)
    requires Valid(b)
    requires ts !in b.pending && ts !in b.finished
    requires DelayedWith(outcome, ts)
    ensures var (b', status) := OnWriteResult(OnFinished(b, ts), outcome);
      status == ResolvedNow && b' == b
  {
    var b1 := OnFinished(b, ts);
    assert b1.finished == b.finished + [ts];
    var i := IndexOf(b1.finished, ts);
    assert b1.finished[|b.finished|] == ts;
    assert i == |b.finished|;
    assert b1.finished[..i] == b.finished;
  }

  /** The delayed write first, then its notification: the write resolves
      when the notification arrives, and `pending` and `finished` are back
      where they started. */
  lemma WriteThenNotify(b: Bookkeeping, outcome: ExecOutcome, ts: string)
    requires Valid(b)
    requires ts !in b.pending && ts !in b.finished
    requires DelayedWith(outcome, ts)
    ensures var (b1, status) := OnWriteResult(b, outcome);
      var b2 := OnFinished(b1, ts);
      && status == Awaiting(|b.waiters|)
      && !WriteResolved(b1, status)
      && WriteResolved(b2, status)
      && b2.pending == b.pending && b2.finished == b.finished
      && b2.waiters == b.waiters + [Resolved]
  {
    var b1 := OnWriteResult(b, outcome).0;
    assert b1.pending == b.pending[ts := |b.waiters|];
    assert b1.pending - {ts} == b.pending;
  }

  /** Whichever comes first, the write on `ts` ends resolved and `ts` is
      neither pending nor finished. */
  lemma OrderIndependent(b: Bookkeeping, outcome: ExecOutcome, ts: string)
    requires Valid(b)
    requires ts !in b.pending && ts !in b.finished
    requires DelayedWith(outcome, ts)
    ensures var (b1, s1) := OnWriteResult(OnFinished(b, ts), outcome);
      WriteResolved(b1, s1) && ts !in b1.pending && ts !in b1.finished
    ensures var (b2, s2) := OnWriteResult(b, outcome);
      var b3 := OnFinished(b2, ts);
      WriteResolved(b3, s2) && ts !in b3.pending && ts !in b3.finished
  {
    NotifyThenWrite(b, outcome, ts);
    WriteThenNotify(b, outcome, ts);
  }

  /** Two writes delayed on different tokens: the notification for the
      second resolves only the second; the first stays pending and waiting. */
  lemma NotificationResolvesOnlyItsWrite(b: Bookkeeping, out3: ExecOutcome, out4: ExecOutcome, t3: string, t4: string)
    requires Valid(b)
    requires t3 != t4
    requires t3 !in b.pending && t3 !in b.finished && t4 !in b.pending && t4 !in b.finished
    requires DelayedWith(out3, t3) && DelayedWith(out4, t4)
    ensures var (b1, s3) := OnWriteResult(b, out3);
      var (b2, s4) := OnWriteResult(b1, out4);
      var b3 := OnFinished(b2, t4);
      && WriteResolved(b3, s4)
      && !WriteResolved(b3, s3)
      && t3 in b3.pending && t4 !in b3.pending
  {
    var (b1, s3) := OnWriteResult(b, out3);
    LatePath(b, out3, t3);
    assert t4 !in b1.finished && t4 !in b1.pending;
    LatePath(b1, out4, t4);
  }

  // ---------------------------------------------------------------------
  // Any interleaving

  /** One bookkeeping event: a write callback or a notification message. */
  datatype Event = WriteCallback(outcome: ExecOutcome) | Notification(msg: string)

  function Step(b: Bookkeeping, e: Event): (r: Bookkeeping)
    requires Tracked(b)
    ensures Tracked(r)
    ensures |b.waiters| <= |r.waiters|
  {
    match e
    case WriteCallback(outcome) => OnWriteResult(b, outcome).0
    case Notification(msg) => OnFinished(b, ExtractToken(msg))
  }

  /** The bookkeeping after a sequence of events, in order. */
  function Run(b: Bookkeeping, events: seq<Event>): (r: Bookkeeping)
    requires Tracked(b)
    ensures Tracked(r)
    ensures |b.waiters| <= |r.waiters|
    decreases |events|
  {
    if events == [] then b else Run(Step(b, events[0]), events[1..])
  }

  /** Every event carries its token when it is a delayed write. */
  predicate WellFormed(events: seq<Event>) {
    forall i :: 0 <= i < |events| && events[i].WriteCallback? ==> CarriesToken(events[i].outcome)
  }

  /** The invariant holds after any interleaving of write callbacks and
      notifications, since each runs without yielding. */
  lemma {:induction false} RunValid(b: Bookkeeping, events: seq<Event>)
    requires Valid(b)
    requires WellFormed(events)
    ensures Valid(Run(b, events))
    decreases |events|
  {
    if events != [] {
      match events[0] {
        case WriteCallback(outcome) => OnWriteResultValid(b, outcome);
        case Notification(msg) => OnFinishedValid(b, ExtractToken(msg));
      }
      RunValid(Step(b, events[0]), events[1..]);
    }
  }

  /** A resolved waiter stays resolved whatever happens afterwards. */
  lemma {:induction false} RunKeepsResolved(b: Bookkeeping, events: seq<Event>, w: nat)
    requires Tracked(b)
    requires w < |b.waiters| && b.waiters[w] == Resolved
    ensures Run(b, events).waiters[w] == Resolved
    decreases |events|
  {
    if events != [] {
      var b' := Step(b, events[0]);
      assert b'.waiters[w] == Resolved;
      RunKeepsResolved(b', events[1..], w);
    }
  }
}
