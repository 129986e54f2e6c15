/** Retrying a statement with backoff. What each attempt returns, and whether the context is done
    when it is about to start, are decided by the environment and appear as parameters. */
module Retry {

  const MAX_RETRIES := 100000

  datatype Attempt = Succeeded | Canceled | Failed

  datatype Outcome = Done | ContextDone | GaveUpCanceled | Exhausted

  // Milliseconds slept after a failed attempt.
  function BackoffDelay(attempt: nat): nat {
    if attempt == 0 then 100
    else if attempt == 1 then 400
    else if attempt <= 2 then 1000
    else if attempt <= 3 then 2000
    else if attempt <= 5 then 5000
    else 10000
  }

  function TotalDelay(failures: nat): nat {
    if failures == 0 then 0 else TotalDelay(failures - 1) + BackoffDelay(failures - 1)
  }

  // The first n attempts all ran and all failed in a way that is retried.
  ghost predicate AllRetried(attempts: nat -> Attempt, contextDone: nat -> bool, n: nat) {
    forall i: nat :: i < n ==> !contextDone(i) && attempts(i) == Failed
  }

  method RetryWithBackoff(attempts: nat -> Attempt, contextDone: nat -> bool)
    returns (outcome: Outcome, started: nat, slept: nat)
    ensures outcome == Done <==>
              exists n: nat :: n < 100000 && AllRetried(attempts, contextDone, n) && !contextDone(n)
                  && attempts(n) == Succeeded
    ensures outcome == ContextDone ==>
                started < 100000 && AllRetried(attempts, contextDone, started) && contextDone(started)
    ensures outcome in {Done, GaveUpCanceled} ==>
              0 < started <= 100000 && AllRetried(attempts, contextDone, started - 1) && !contextDone(started - 1)
              && attempts(started - 1) == (if outcome == Done then Succeeded else Canceled)
    ensures outcome == Exhausted ==> started == 100000 && AllRetried(attempts, contextDone, started)
    ensures slept == TotalDelay(if outcome in {Done, GaveUpCanceled} then started - 1 else started)
  {
    hide BackoffDelay;
    started, slept := 0, 0;
    while started < MAX_RETRIES
      invariant started <= MAX_RETRIES
      invariant AllRetried(attempts, contextDone, started)
      invariant slept == TotalDelay(started)
    {
      if contextDone(started) {
        return ContextDone, started, slept;
      }
      match attempts(started) {
        case Succeeded =>
          assert started < MAX_RETRIES && AllRetried(attempts, contextDone, started);
          return Done, started + 1, slept;
        case Canceled =>
          return GaveUpCanceled, started + 1, slept;
        case Failed =>
          slept := slept + BackoffDelay(started);
          started := started + 1;
      }
    }
    outcome := Exhausted;
  }

  // What the first failures cost in all, one by one.
  lemma FirstDelays()
    ensures TotalDelay(1) == 100 && TotalDelay(2) == 500 && TotalDelay(3) == 1500 && TotalDelay(4) == 3500
    ensures TotalDelay(5) == 8500 && TotalDelay(6) == 13500
  {
    assert TotalDelay(3) == 1500;
    assert TotalDelay(5) == 8500;
  }

  // The first six failures cost 13.5 seconds together; every further one costs ten.
  lemma {:induction false} TotalDelayGrows(failures: nat)
    requires failures >= 6
    ensures TotalDelay(failures) == 13500 + 10000 * (failures - 6)
  {
    if failures == 6 {
      assert TotalDelay(3) == 1500;
      assert TotalDelay(5) == 8500;
    } else {
      TotalDelayGrows(failures - 1);
    }
  }
}
