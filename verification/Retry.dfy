/**
 crawler/retry_policy.py, and the publishing of reviews in
 crawler/kafka_producer.py that `run_residual_retry` repeats: each attempt sends
 what is still pending, awaits every confirmation, and returns what failed.
 */
module Retry {
  import opened Wrappers

  type KafkaError = string

  /** What the broker does with one message of one attempt. */
  datatype Fate = SendFails(error: KafkaError) | ConfirmFails(error: KafkaError) | Delivered

  /** The fate of the message at a position of an attempt. */
  type Fates = (nat, nat) -> Fate

  datatype Ending = Returned | RaisedKafkaError(error: KafkaError) | RaisedRuntimeError

  function Pow2(n: nat): nat { if n == 0 then 1 else 2 * Pow2(n - 1) }

  /** `backoff_delay_seconds` */
  function BackoffDelay(attempt: nat, base: real): real { base * Pow2(attempt) as real }

  /** The total slept after `k` retries. */
  function TotalDelay(k: nat, base: real): real {
    if k == 0 then 0.0 else TotalDelay(k - 1, base) + BackoffDelay(k - 1, base)
  }

  lemma {:induction false} TotalDelayClosedForm(k: nat, base: real)
    ensures TotalDelay(k, base) == base * (Pow2(k) as real - 1.0)
  {
    if k == 0 {
    } else {
      TotalDelayClosedForm(k - 1, base);
      var p := Pow2(k - 1) as real;
      assert Pow2(k) as real == 2.0 * p;
      assert base * (p - 1.0) + base * p == base * (2.0 * p - 1.0);
    }
  }

  // ----- One attempt, message by message -----

  function Extend<T>(s: seq<T>, grows: bool, x: T): seq<T> { if grows then s + [x] else s }

  function SendFailures<T>(items: seq<T>, fates: nat -> Fate): seq<T> {
    if items == [] then []
    else
      var n := |items| - 1;
      Extend(SendFailures(items[..n], fates), fates(n).SendFails?, items[n])
  }

  function ConfirmFailures<T>(items: seq<T>, fates: nat -> Fate): seq<T> {
    if items == [] then []
    else
      var n := |items| - 1;
      Extend(ConfirmFailures(items[..n], fates), fates(n).ConfirmFails?, items[n])
  }

  function Confirmed<T>(items: seq<T>, fates: nat -> Fate): seq<T> {
    if items == [] then []
    else
      var n := |items| - 1;
      Extend(Confirmed(items[..n], fates), fates(n).Delivered?, items[n])
  }

  /** The messages that were sent, with their positions. */
  function Enqueued<T>(items: seq<T>, fates: nat -> Fate): seq<(T, nat)> {
    if items == [] then []
    else
      var n := |items| - 1;
      Extend(Enqueued(items[..n], fates), !fates(n).SendFails?, (items[n], n))
  }

  function Added<T>(grows: bool, x: T): multiset<T> { if grows then multiset{x} else multiset{} }

  lemma Extended<T>(s: seq<T>, grows: bool, x: T)
    ensures multiset(Extend(s, grows, x)) == multiset(s) + Added(grows, x)
  {
  }

  /** One more message joins exactly one of the three. */
  lemma OneJoins<T>(a: multiset<T>, b: multiset<T>, c: multiset<T>, m: multiset<T>, x: T, fate: Fate)
    requires a + b + c == m
    ensures (a + Added(fate.Delivered?, x)) + (b + Added(fate.SendFails?, x)) + (c + Added(fate.ConfirmFails?, x))
         == m + multiset{x}
  {
  }

  /** Every message is confirmed, or failed to send, or failed to confirm, exactly once. */
  lemma {:induction false} AttemptConserves<T>(items: seq<T>, fates: nat -> Fate)
    ensures multiset(Confirmed(items, fates)) + multiset(SendFailures(items, fates))
            + multiset(ConfirmFailures(items, fates)) == multiset(items)
  {
    if items == [] {
    } else {
      var n := |items| - 1;
      var f, x, fate := items[..n], items[n], fates(n);
      AttemptConserves(f, fates);
      OneJoins(multiset(Confirmed(f, fates)), multiset(SendFailures(f, fates)), multiset(ConfirmFailures(f, fates)),
               multiset(f), x, fate);
      Extended(Confirmed(f, fates), fate.Delivered?, x);
      Extended(SendFailures(f, fates), fate.SendFails?, x);
      Extended(ConfirmFailures(f, fates), fate.ConfirmFails?, x);
      assert items == f + [x];
    }
  }

  /** The error of the last message of an attempt that could not be sent. */
  function SendError(n: nat, fates: nat -> Fate): Option<KafkaError> {
    if n == 0 then None else if fates(n - 1).SendFails? then Some(fates(n - 1).error) else SendError(n - 1, fates)
  }

  /** The error of the last message of an attempt that was sent but not confirmed. */
  function ConfirmError(n: nat, fates: nat -> Fate): Option<KafkaError> {
    if n == 0 then None else if fates(n - 1).ConfirmFails? then Some(fates(n - 1).error) else ConfirmError(n - 1, fates)
  }

  /** An attempt reports an error exactly when it leaves something behind. */
  lemma {:induction false} ErrorsMeanFailures<T>(items: seq<T>, fates: nat -> Fate)
    ensures SendError(|items|, fates).Some? <==> SendFailures(items, fates) != []
    ensures ConfirmError(|items|, fates).Some? <==> ConfirmFailures(items, fates) != []
  {
    if items == [] {
    } else {
      ErrorsMeanFailures(items[..|items| - 1], fates);
    }
  }

  /** What the second phase makes of the first `m` enqueued messages. */
  function AwaitFailures<T>(enqueued: seq<(T, nat)>, fates: nat -> Fate): seq<T> {
    if enqueued == [] then []
    else
      var n := |enqueued| - 1;
      Extend(AwaitFailures(enqueued[..n], fates), fates(enqueued[n].1).ConfirmFails?, enqueued[n].0)
  }

  function AwaitConfirmed<T>(enqueued: seq<(T, nat)>, fates: nat -> Fate): seq<T> {
    if enqueued == [] then []
    else
      var n := |enqueued| - 1;
      Extend(AwaitConfirmed(enqueued[..n], fates), fates(enqueued[n].1).Delivered?, enqueued[n].0)
  }

  function AwaitError<T>(enqueued: seq<(T, nat)>, fates: nat -> Fate): Option<KafkaError> {
    if enqueued == [] then None
    else
      var n := |enqueued| - 1;
      var fate := fates(enqueued[n].1);
      if fate.ConfirmFails? then Some(fate.error) else AwaitError(enqueued[..n], fates)
  }

  lemma AwaitOneMore<T>(before: seq<(T, nat)>, x: (T, nat), fates: nat -> Fate)
    ensures AwaitFailures(before + [x], fates)
         == Extend(AwaitFailures(before, fates), fates(x.1).ConfirmFails?, x.0)
    ensures AwaitConfirmed(before + [x], fates)
         == Extend(AwaitConfirmed(before, fates), fates(x.1).Delivered?, x.0)
    ensures AwaitError(before + [x], fates)
         == if fates(x.1).ConfirmFails? then Some(fates(x.1).error) else AwaitError(before, fates)
  {
  }

  lemma {:induction false} AwaitingEnqueued<T>(items: seq<T>, fates: nat -> Fate)
    ensures AwaitFailures(Enqueued(items, fates), fates) == ConfirmFailures(items, fates)
    ensures AwaitConfirmed(Enqueued(items, fates), fates) == Confirmed(items, fates)
    ensures AwaitError(Enqueued(items, fates), fates) == ConfirmError(|items|, fates)
  {
    if items == [] {
    } else {
      var n := |items| - 1;
      AwaitingEnqueued(items[..n], fates);
      var before := Enqueued(items[..n], fates);
      if !fates(n).SendFails? { AwaitOneMore(before, (items[n], n), fates); }
    }
  }

  // ----- Attempt after attempt -----

  function AttemptFates(fates: Fates, attempt: nat): nat -> Fate { (n: nat) => fates(attempt, n) }

  /** What one attempt leaves for the next. */
  function Residual<T>(items: seq<T>, fates: nat -> Fate): seq<T> {
    SendFailures(items, fates) + ConfirmFailures(items, fates)
  }

  function AttemptError<T>(items: seq<T>, fates: nat -> Fate): Option<KafkaError> {
    var confirmError := ConfirmError(|items|, fates);
    if confirmError.Some? then confirmError else SendError(|items|, fates)
  }

  /** What the topic holds, what is still to be sent, and the error of the last attempt made. */
  datatype Progress<T> = Progress(delivered: seq<T>, pending: seq<T>, error: Option<KafkaError>)

  function Attempted<T>(p: Progress<T>, fates: nat -> Fate): Progress<T> {
    Progress(p.delivered + Confirmed(p.pending, fates), Residual(p.pending, fates), AttemptError(p.pending, fates))
  }

  /** After some attempts to publish `reviews` on a topic that held `before`. */
  function ProgressAfter<T>(before: seq<T>, reviews: seq<T>, fates: Fates, attempts: nat): Progress<T> {
    if attempts == 0 then Progress(before, reviews, None)
    else Attempted(ProgressAfter(before, reviews, fates, attempts - 1), AttemptFates(fates, attempts - 1))
  }

  function Messages<T>(p: Progress<T>): multiset<T> { multiset(p.delivered) + multiset(p.pending) }

  /** However attempts fail, what was confirmed and what is pending are what was asked for, nothing twice. */
  lemma AttemptsConserve<T>(before: seq<T>, reviews: seq<T>, fates: Fates, attempts: nat)
    ensures Messages(ProgressAfter(before, reviews, fates, attempts)) == multiset(before) + multiset(reviews)
  {
    var total := (n: nat) => Messages(ProgressAfter(before, reviews, fates, n));
    forall n: nat ensures total(n + 1) == total(n) {
      OneMoreAttempt(ProgressAfter(before, reviews, fates, n), AttemptFates(fates, n));
    }
    Unchanging(total, attempts);
  }

  /** A quantity that no step changes is what it was at first. */
  lemma {:induction false} Unchanging<T>(total: nat -> multiset<T>, n: nat)
    requires forall i: nat :: total(i + 1) == total(i)
    ensures total(n) == total(0)
  {
    if n == 0 {
    } else {
      Unchanging(total, n - 1);
    }
  }

  lemma OneMoreAttempt<T>(p: Progress<T>, fates: nat -> Fate)
    ensures Messages(Attempted(p, fates)) == Messages(p)
  {
    var confirmed, unsent, unconfirmed :=
      Confirmed(p.pending, fates), SendFailures(p.pending, fates), ConfirmFailures(p.pending, fates);
    AttemptConserves(p.pending, fates);
    Joined(p.delivered, confirmed);
    Joined(unsent, unconfirmed);
    Regrouped(multiset(p.delivered), multiset(confirmed), multiset(unsent), multiset(unconfirmed), multiset(p.pending));
  }

  lemma Joined<T>(a: seq<T>, b: seq<T>)
    ensures multiset(a + b) == multiset(a) + multiset(b)
  {
  }

  lemma Regrouped<T>(a: multiset<T>, b: multiset<T>, c: multiset<T>, d: multiset<T>, m: multiset<T>)
    requires b + c + d == m
    ensures (a + b) + (c + d) == a + m
  {
  }

  /** Nothing comes from nothing: if something is pending, something was pending after every earlier attempt. */
  lemma {:induction false} EarlierPending<T>(before: seq<T>, reviews: seq<T>, fates: Fates, attempts: nat, n: nat)
    requires n <= attempts && ProgressAfter(before, reviews, fates, attempts).pending != []
    ensures ProgressAfter(before, reviews, fates, n).pending != []
  {
    if n == attempts {
    } else {
      EarlierPending(before, reviews, fates, attempts - 1, n);
    }
  }

  /** A record of progress, attempt after attempt. */
  ghost predicate Chain<T>(steps: seq<Progress<T>>, fates: Fates) {
    forall i :: 0 <= i < |steps| - 1 ==> steps[i + 1] == Attempted(steps[i], AttemptFates(fates, i))
  }

  lemma {:induction false} ChainIsProgress<T>(steps: seq<Progress<T>>, before: seq<T>, reviews: seq<T>, fates: Fates,
                                              n: nat)
    requires n < |steps| && steps[0] == Progress(before, reviews, None) && Chain(steps, fates)
    ensures steps[n] == ProgressAfter(before, reviews, fates, n)
  {
    if n == 0 {
    } else {
      ChainIsProgress(steps, before, reviews, fates, n - 1);
      assert steps[n - 1 + 1] == Attempted(steps[n - 1], AttemptFates(fates, n - 1));
    }
  }

  /** The delays before the next attempt: none follows the last one. */
  function SleptBefore(attempts: nat, maxRetries: int, base: real): real {
    TotalDelay(if attempts == maxRetries + 1 && attempts > 0 then attempts - 1 else attempts, base)
  }

  class Topic<T> {
    /** The messages the broker has confirmed. */
    var delivered: seq<T>

    constructor ()
      ensures delivered == []
    {
      delivered := [];
    }

    /** `_publish_reviews_attempt`: enqueue everything, then classify every future. */
    method PublishAttempt(reviews: seq<T>, fates: nat -> Fate) returns (failed: seq<T>, lastError: Option<KafkaError>)
      modifies this
      ensures Progress(delivered, failed, lastError) == Attempted(Progress(old(delivered), reviews, None), fates)
      ensures lastError.Some? <==> failed != []
    {
      var enqueued, unsent, sendError := EnqueueAll(reviews, fates);
      var unconfirmed, confirmError := AwaitAll(enqueued, fates);
      AwaitingEnqueued(reviews, fates);
      ErrorsMeanFailures(reviews, fates);
      return unsent + unconfirmed, if confirmError.Some? then confirmError else sendError;
    }

    /** Phase 1: enqueue all pending messages. */
    method EnqueueAll(reviews: seq<T>, fates: nat -> Fate)
      returns (enqueued: seq<(T, nat)>, failed: seq<T>, lastError: Option<KafkaError>)
      ensures enqueued == Enqueued(reviews, fates)
      ensures failed == SendFailures(reviews, fates)
      ensures lastError == SendError(|reviews|, fates)
    {
      enqueued, failed, lastError := [], [], None;
      for i := 0 to |reviews|
        invariant enqueued == Enqueued(reviews[..i], fates)
        invariant failed == SendFailures(reviews[..i], fates)
        invariant lastError == SendError(i, fates)
      {
        assert reviews[..i + 1][..i] == reviews[..i];
        var fate := fates(i);
        if fate.SendFails? {
          failed := failed + [reviews[i]];
          lastError := Some(fate.error);
        } else {
          enqueued := enqueued + [(reviews[i], i)];
        }
      }
      assert reviews[..|reviews|] == reviews;
    }

    /** Phase 2: classify every future of this attempt. */
    method AwaitAll(enqueued: seq<(T, nat)>, fates: nat -> Fate)
      returns (failed: seq<T>, lastError: Option<KafkaError>)
      modifies this
      ensures failed == AwaitFailures(enqueued, fates)
      ensures delivered == old(delivered) + AwaitConfirmed(enqueued, fates)
      ensures lastError == AwaitError(enqueued, fates)
    {
      failed, lastError := [], None;
      for i := 0 to |enqueued|
        invariant failed == AwaitFailures(enqueued[..i], fates)
        invariant delivered == old(delivered) + AwaitConfirmed(enqueued[..i], fates)
        invariant lastError == AwaitError(enqueued[..i], fates)
      {
        assert enqueued[..i + 1][..i] == enqueued[..i];
        var (review, position) := enqueued[i];
        var fate := fates(position);
        if fate.ConfirmFails? {
          failed := failed + [review];
          lastError := Some(fate.error);
        } else if fate.Delivered? {
          delivered := delivered + [review];
        }
      }
      assert enqueued[..|enqueued|] == enqueued;
    }

    /** `send_reviews`: nothing the caller passed is lost or confirmed twice. */
    method SendReviews(reviews: seq<T>, fates: Fates, maxRetries: int, base: real)
      returns (ending: Ending, residual: seq<T>, attempts: nat, slept: real)
      modifies this
      ensures attempts <= if maxRetries < 0 then 0 else maxRetries + 1
      ensures var p := ProgressAfter(old(delivered), reviews, fates, attempts);
        delivered == p.delivered && residual == p.pending
      ensures multiset(delivered) + multiset(residual) == multiset(old(delivered)) + multiset(reviews)
      ensures ending.Returned? <==> residual == []
      ensures ending.RaisedRuntimeError? <==> reviews != [] && maxRetries < 0
    {
      ending, residual, attempts, slept := RunResidualRetry(reviews, fates, maxRetries, base);
      AttemptsConserve(old(delivered), reviews, fates, attempts);
    }

    /**
     `run_residual_retry` over publish attempts. `residual` is what is still pending
     at the end, `attempts` how many were made, `slept` the total delay.
     */
    method RunResidualRetry(reviews: seq<T>, fates: Fates, maxRetries: int, base: real)
      returns (ending: Ending, residual: seq<T>, attempts: nat, slept: real)
      modifies this
      ensures attempts <= if maxRetries < 0 then 0 else maxRetries + 1
      ensures var p := ProgressAfter(old(delivered), reviews, fates, attempts);
        && delivered == p.delivered && residual == p.pending
        && (ending.RaisedKafkaError? ==> attempts == maxRetries + 1 && Some(ending.error) == p.error)
      ensures attempts > 0 ==> ProgressAfter(old(delivered), reviews, fates, attempts - 1).pending != []
      ensures ending.Returned? <==> residual == []
      ensures ending.RaisedRuntimeError? <==> reviews != [] && maxRetries < 0
      ensures slept == TotalDelay(if attempts == 0 then 0 else attempts - 1, base)
    {
      if reviews == [] {
        return Returned, [], 0, 0.0;
      }
      var lastError;
      ghost var steps;
      residual, lastError, attempts, slept, steps := RetryLoop(reviews, fates, maxRetries, base);
      ChainIsProgress(steps, old(delivered), reviews, fates, attempts);
      if attempts > 0 { ChainIsProgress(steps, old(delivered), reviews, fates, attempts - 1); }
      if residual == [] {
        ending := Returned;
      } else if lastError.Some? {
        ending := RaisedKafkaError(lastError.value);
      } else {
        ending := RaisedRuntimeError;
      }
    }

    /** One turn of the loop: an attempt, and a delay if it left something and is not the last. */
    method RetryOnce(fates: nat -> Fate, attempt: nat, maxRetries: int, base: real, pending: seq<T>,
                     lastError: Option<KafkaError>, slept: real)
      returns (residual: seq<T>, error: Option<KafkaError>, total: real, ghost step: Progress<T>)
      requires attempt <= maxRetries && slept == SleptBefore(attempt, maxRetries, base)
      modifies this
      ensures step == Attempted(Progress(old(delivered), pending, lastError), fates)
      ensures delivered == step.delivered && residual == step.pending
      ensures residual != [] ==> error == step.error && error.Some?
      ensures total == if residual == [] then TotalDelay(attempt, base) else SleptBefore(attempt + 1, maxRetries, base)
    {
      var reported;
      residual, reported := PublishAttempt(pending, fates);
      step := Progress(delivered, residual, reported);
      error := if reported.Some? then reported else lastError;
      total := if residual != [] && attempt < maxRetries then slept + BackoffDelay(attempt, base) else slept;
    }

    /** The loop itself: until nothing is pending or the attempts are used up. */
    method RetryLoop(reviews: seq<T>, fates: Fates, maxRetries: int, base: real)
      returns (pending: seq<T>, lastError: Option<KafkaError>, attempts: nat, slept: real,
               ghost steps: seq<Progress<T>>)
      requires reviews != []
      modifies this
      ensures attempts <= if maxRetries < 0 then 0 else maxRetries + 1
      ensures |steps| == attempts + 1 && steps[0] == Progress(old(delivered), reviews, None) && Chain(steps, fates)
      ensures delivered == steps[attempts].delivered && pending == steps[attempts].pending
      ensures forall i :: 0 <= i < attempts ==> steps[i].pending != []
      ensures pending == [] ==> attempts > 0
      ensures pending != [] ==> attempts == if maxRetries < 0 then 0 else maxRetries + 1
      ensures pending != [] ==> lastError == steps[attempts].error && (lastError.Some? <==> attempts > 0)
      ensures slept == TotalDelay(if attempts == 0 then 0 else attempts - 1, base)
    {
      pending, lastError, attempts, slept := reviews, None, 0, 0.0;
      steps := [Progress(delivered, reviews, None)];
      while attempts < maxRetries + 1
        invariant attempts <= if maxRetries < 0 then 0 else maxRetries + 1
        invariant |steps| == attempts + 1 && steps[0] == Progress(old(delivered), reviews, None) && Chain(steps, fates)
        invariant steps[attempts] == Progress(delivered, pending, lastError)
        invariant forall i :: 0 <= i < attempts + 1 ==> steps[i].pending != []
        invariant lastError.Some? <==> attempts > 0
        invariant slept == SleptBefore(attempts, maxRetries, base)
      {
        ghost var step;
        pending, lastError, slept, step :=
          RetryOnce(AttemptFates(fates, attempts), attempts, maxRetries, base, pending, lastError, slept);
        steps := steps + [step];
        attempts := attempts + 1;
        if pending == [] {
          return;
        }
      }
    }
  }

  datatype CallEnding = CallReturned | CallRaised | AssertionFailed

  /**
   `with_retry`: the same call again, until it succeeds or the budget is spent. A
   negative budget leaves the loop without a call and reaches its final assertion.
   */
  method WithRetry(fails: nat -> bool, maxRetries: int, base: real)
    returns (ending: CallEnding, calls: nat, slept: real)
    ensures ending.AssertionFailed? <==> maxRetries < 0
    ensures maxRetries < 0 ==> calls == 0 && slept == 0.0
    ensures maxRetries >= 0 ==> 1 <= calls <= maxRetries + 1
    ensures maxRetries >= 0 ==> forall i: nat :: i < calls - 1 ==> fails(i)
    ensures maxRetries >= 0 ==> (ending.CallReturned? <==> !fails(calls - 1))
    ensures ending.CallRaised? ==> calls == maxRetries + 1
    ensures maxRetries >= 0 ==> slept == TotalDelay(calls - 1, base)
  {
    calls, slept := 0, 0.0;
    while calls < maxRetries + 1
      invariant maxRetries >= 0 ==> calls <= maxRetries
      invariant maxRetries < 0 ==> calls == 0
      invariant forall i: nat :: i < calls ==> fails(i)
      invariant slept == TotalDelay(calls, base)
      decreases maxRetries + 1 - calls
    {
      if !fails(calls) {
        return CallReturned, calls + 1, slept;
      }
      if calls >= maxRetries {
        return CallRaised, calls + 1, slept;
      }
      slept := slept + BackoffDelay(calls, base);
      calls := calls + 1;
    }
    return AssertionFailed, calls, slept;
  }
}
