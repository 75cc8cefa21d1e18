/** The engine reconnect ladder's bound (constants.ts). */
module ReconnectLadder {

  /** The schedule's entry, its last entry once it runs out, one second if it is empty. */
  function DelayMs(backoffMs: seq<int>, attemptIndex: int): int {
    var i := if attemptIndex < |backoffMs| - 1 then attemptIndex else |backoffMs| - 1;
    if 0 <= i < |backoffMs| then backoffMs[i] else 1000
  }

  function WorstCase(backoffMs: seq<int>, retries: nat, attemptMs: int): int {
    if retries == 0 then 0
    else WorstCase(backoffMs, retries - 1, attemptMs) + (DelayMs(backoffMs, retries - 1) + attemptMs)
  }

  method WorstCaseMs(backoffMs: seq<int>, maxRetries: int, attemptMs: int) returns (total: int)
    ensures total == WorstCase(backoffMs, if maxRetries < 0 then 0 else maxRetries, attemptMs)
  {
    total := 0;
    var i := 0;
    while i < maxRetries
      invariant 0 <= i && (i <= maxRetries || i == 0)
      invariant total == WorstCase(backoffMs, i, attemptMs)
    {
      total := total + (DelayMs(backoffMs, i) + attemptMs);
      i := i + 1;
    }
  }

  /** How long a run lasts whose attempts, after their waits, took these times. */
  function Elapsed(backoffMs: seq<int>, spent: seq<int>): int {
    if spent == [] then 0
    else Elapsed(backoffMs, spent[..|spent| - 1]) + DelayMs(backoffMs, |spent| - 1) + spent[|spent| - 1]
  }

  /** Waits are never negative. */
  predicate IsSchedule(backoffMs: seq<int>) {
    forall k :: 0 <= k < |backoffMs| ==> backoffMs[k] >= 0
  }

  lemma {:induction false} RunWithin(backoffMs: seq<int>, spent: seq<int>, attemptMs: int)
    requires forall k :: 0 <= k < |spent| ==> spent[k] <= attemptMs
    ensures Elapsed(backoffMs, spent) <= WorstCase(backoffMs, |spent|, attemptMs)
  {
    if spent != [] {
      RunWithin(backoffMs, spent[..|spent| - 1], attemptMs);
    }
  }

  lemma {:induction false} MonotoneInRetries(backoffMs: seq<int>, fewer: nat, more: nat, attemptMs: nat)
    requires IsSchedule(backoffMs) && fewer <= more
    ensures WorstCase(backoffMs, fewer, attemptMs) <= WorstCase(backoffMs, more, attemptMs)
  {
    if fewer < more {
      MonotoneInRetries(backoffMs, fewer, more - 1, attemptMs);
    }
  }

  lemma {:induction false} MonotoneInCap(backoffMs: seq<int>, retries: nat, shorter: int, longer: int)
    requires shorter <= longer
    ensures WorstCase(backoffMs, retries, shorter) <= WorstCase(backoffMs, retries, longer)
  {
    if retries > 0 {
      MonotoneInCap(backoffMs, retries - 1, shorter, longer);
    }
  }

  /** Whenever the ladder stops, recovered or out of retries, it is within the bound. */
  lemma {:induction false} NoRunIsLonger(backoffMs: seq<int>, retries: nat, attemptMs: nat, spent: seq<int>)
    requires IsSchedule(backoffMs) && |spent| <= retries
    requires forall k :: 0 <= k < |spent| ==> spent[k] <= attemptMs
    ensures Elapsed(backoffMs, spent) <= WorstCase(backoffMs, retries, attemptMs)
  {
    RunWithin(backoffMs, spent, attemptMs);
    MonotoneInRetries(backoffMs, |spent|, retries, attemptMs);
  }

  /** And the bound is met by a run that uses every retry to the full. */
  lemma {:induction false} BoundIsAttained(backoffMs: seq<int>, retries: nat, attemptMs: int) returns (spent: seq<int>)
    ensures |spent| == retries && (forall k :: 0 <= k < |spent| ==> spent[k] == attemptMs)
    ensures Elapsed(backoffMs, spent) == WorstCase(backoffMs, retries, attemptMs)
  {
    if retries == 0 {
      spent := [];
    } else {
      var before := BoundIsAttained(backoffMs, retries - 1, attemptMs);
      spent := before + [attemptMs];
      assert spent[..|spent| - 1] == before;
    }
  }

  function Sum(xs: seq<int>): int {
    if xs == [] then 0 else Sum(xs[..|xs| - 1]) + xs[|xs| - 1]
  }

  /** The closed form: the schedule, its last entry repeated (or a second each if there is none), and
      every attempt's cap. */
  lemma {:induction false} ClosedForm(backoffMs: seq<int>, retries: nat, attemptMs: int)
    ensures WorstCase(backoffMs, retries, attemptMs) == retries * attemptMs +
              if backoffMs == [] then retries * 1000
              else if retries <= |backoffMs| then Sum(backoffMs[..retries])
              else Sum(backoffMs) + (retries - |backoffMs|) * backoffMs[|backoffMs| - 1]
  {
    if retries > 0 {
      ClosedForm(backoffMs, retries - 1, attemptMs);
      assert retries * attemptMs == (retries - 1) * attemptMs + attemptMs;
      if backoffMs != [] {
        var last := backoffMs[|backoffMs| - 1];
        if retries <= |backoffMs| {
          assert backoffMs[..retries][..retries - 1] == backoffMs[..retries - 1];
        } else {
          assert backoffMs[..|backoffMs|] == backoffMs;
          assert (retries - |backoffMs|) * last == (retries - 1 - |backoffMs|) * last + last;
        }
      }
    }
  }

  /** The shipped defaults: 1 + 2 + 4 s of waiting and three attempts of 5 s. */
  lemma DefaultsAre22Seconds()
    ensures WorstCase([1000, 2000, 4000], 3, 5000) == 22_000
  {
    ClosedForm([1000, 2000, 4000], 3, 5000);
    assert [1000, 2000, 4000][..3] == [1000, 2000, 4000];
    assert Sum([1000, 2000, 4000]) == Sum([1000, 2000]) + 4000 by { assert [1000, 2000, 4000][..2] == [1000, 2000]; }
    assert Sum([1000, 2000]) == Sum([1000]) + 2000 by { assert [1000, 2000][..1] == [1000]; }
  }
}
