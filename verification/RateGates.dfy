/** The flood gate of error-handling.ts: one log line per window, every other event counted. */
module RateGates {
  import opened Prelude

  /** `startedAt` is None for the initial NEGATIVE_INFINITY: no window has been opened yet. */
  datatype Gate = Gate(windowMs: int, startedAt: Option<int>, suppressed: nat)

  function Fresh(windowMs: int): Gate {
    Gate(windowMs, None, 0)
  }

  predicate Open(g: Gate, t: int) {
    g.startedAt.None? || t - g.startedAt.value >= g.windowMs
  }

  /** One call at clock reading t: the gate afterwards and the answer (None = suppressed). */
  function Acquire(g: Gate, t: int): (Gate, Option<nat>) {
    if Open(g, t) then (g.(startedAt := Some(t), suppressed := 0), Some(g.suppressed))
    else (g.(suppressed := g.suppressed + 1), None)
  }

  class RateGate {
    const windowMs: int
    var windowStartedAt: Option<int>
    var suppressed: nat

    constructor (windowMs: int)
      ensures State() == Fresh(windowMs)
    {
      this.windowMs := windowMs;
      windowStartedAt := None;
      suppressed := 0;
    }

    function State(): Gate
      reads this
    {
      Gate(windowMs, windowStartedAt, suppressed)
    }

    method TryAcquire(t: int) returns (answer: Option<nat>)
      modifies this
      ensures (State(), answer) == Acquire(old(State()), t)
    {
      if windowStartedAt.None? || t - windowStartedAt.value >= windowMs {
        windowStartedAt := Some(t);
        var n := suppressed;
        suppressed := 0;
        return Some(n);
      }
      suppressed := suppressed + 1;
      return None;
    }
  }

  // ----- whole runs: one clock reading per call, in call order -----

  function After(g: Gate, ts: seq<int>): Gate
    decreases ts
  {
    if ts == [] then g else After(Acquire(g, ts[0]).0, ts[1..])
  }

  function Answers(g: Gate, ts: seq<int>): (r: seq<Option<nat>>)
    ensures |r| == |ts|
    decreases ts
  {
    if ts == [] then [] else
      var (g', a) := Acquire(g, ts[0]);
      [a] + Answers(g', ts[1..])
  }

  /** How many calls were answered with "log now". */
  function Grants(answers: seq<Option<nat>>): nat {
    if answers == [] then 0
    else (if answers[0].Some? then 1 else 0) + Grants(answers[1..])
  }

  /** The sum of the suppressed-counts those lines carried. */
  function Reported(answers: seq<Option<nat>>): nat {
    if answers == [] then 0
    else (if answers[0].Some? then answers[0].value else 0) + Reported(answers[1..])
  }

  /** Rate limiting drops lines, never counts: for any clock at all, every call is a line, is
      counted on a later line, or is still pending on the gate. */
  lemma {:induction false} Conservation(g: Gate, ts: seq<int>)
    ensures g.suppressed + |ts| ==
            Grants(Answers(g, ts)) + Reported(Answers(g, ts)) + After(g, ts).suppressed
    decreases ts
  {
    if ts != [] {
      var (g', a) := Acquire(g, ts[0]);
      Conservation(g', ts[1..]);
      assert Answers(g, ts)[1..] == Answers(g', ts[1..]);
    }
  }

  /** What a gate that starts as g goes by after these calls: the reading of the last line granted. */
  function LastGrant(g: Gate, ts: seq<int>): Option<int>
    decreases ts
  {
    if ts == [] then g.startedAt
    else
      var (g', a) := Acquire(g, ts[0]);
      LastGrant(if a.Some? then g.(startedAt := Some(ts[0])) else g, ts[1..])
  }

  /** The gate is open iff no line was granted yet or the last one is a whole window old. */
  lemma {:induction false} OpenIff(g: Gate, ts: seq<int>, t: int)
    ensures Open(After(g, ts), t) <==> LastGrant(g, ts).None? || t - LastGrant(g, ts).value >= g.windowMs
    decreases ts
  {
    if ts != [] {
      var (g', a) := Acquire(g, ts[0]);
      OpenIff(g', ts[1..], t);
      SameStartSameGrants(g', if a.Some? then g.(startedAt := Some(ts[0])) else g, ts[1..]);
    }
  }

  lemma {:induction false} SameStartSameGrants(g: Gate, h: Gate, ts: seq<int>)
    requires g.startedAt == h.startedAt && g.windowMs == h.windowMs
    ensures LastGrant(g, ts) == LastGrant(h, ts)
    decreases ts
  {
    if ts != [] {
      var (g', a) := Acquire(g, ts[0]);
      SameStartSameGrants(if a.Some? then g.(startedAt := Some(ts[0])) else g,
                          if a.Some? then h.(startedAt := Some(ts[0])) else h, ts[1..]);
    }
  }

  /** Until a line is granted the window's start does not move, so the first line comes one whole
      window after it. */
  lemma {:induction false} FirstGrantIsLate(g: Gate, ts: seq<int>, j: nat)
    requires j < |ts| && g.startedAt.Some?
    requires Answers(g, ts)[j].Some? && forall k :: 0 <= k < j ==> Answers(g, ts)[k].None?
    ensures ts[j] - g.startedAt.value >= g.windowMs
    decreases ts
  {
    var (g', a) := Acquire(g, ts[0]);
    var rest := Answers(g', ts[1..]);
    assert Answers(g, ts) == [a] + rest;
    if j > 0 {
      assert a == Answers(g, ts)[0];
      assert forall k :: 0 <= k < j - 1 ==> rest[k] == Answers(g, ts)[k + 1];
      FirstGrantIsLate(g', ts[1..], j - 1);
    }
  }

  /** For any clock, two consecutive lines are at least one window apart. */
  lemma {:induction false} GrantsAreSpaced(g: Gate, ts: seq<int>, i: nat, j: nat)
    requires i < j < |ts|
    requires Answers(g, ts)[i].Some? && Answers(g, ts)[j].Some?
    requires forall k :: i < k < j ==> Answers(g, ts)[k].None?
    ensures ts[j] - ts[i] >= g.windowMs
    decreases ts
  {
    var (g', a) := Acquire(g, ts[0]);
    var rest := Answers(g', ts[1..]);
    var all := Answers(g, ts);
    assert all == [a] + rest;
    assert rest[j - 1] == all[j];
    forall k | i - 1 < k < j - 1 ensures rest[k].None? {
      assert rest[k] == all[k + 1];
    }
    if i > 0 {
      assert rest[i - 1] == all[i];
      GrantsAreSpaced(g', ts[1..], i - 1, j - 1);
    } else {
      FirstGrantIsLate(g', ts[1..], j - 1);
    }
  }

  /** The first line carries everything held back before it. */
  lemma {:induction false} FirstGrantCarries(g: Gate, ts: seq<int>, j: nat)
    requires j < |ts| && Answers(g, ts)[j].Some? && forall k :: 0 <= k < j ==> Answers(g, ts)[k].None?
    ensures Answers(g, ts)[j] == Some(g.suppressed + j)
    decreases ts
  {
    var (g', a) := Acquire(g, ts[0]);
    var rest, all := Answers(g', ts[1..]), Answers(g, ts);
    assert all == [a] + rest;
    if j > 0 {
      assert a == all[0] && rest[j - 1] == all[j];
      assert forall k :: 0 <= k < j - 1 ==> rest[k] == all[k + 1];
      FirstGrantCarries(g', ts[1..], j - 1);
    }
  }

  /** Every later line carries exactly the calls since the line before it. */
  lemma {:induction false} GrantCarries(g: Gate, ts: seq<int>, i: nat, j: nat)
    requires i < j < |ts| && Answers(g, ts)[i].Some? && Answers(g, ts)[j].Some?
    requires forall k :: i < k < j ==> Answers(g, ts)[k].None?
    ensures Answers(g, ts)[j] == Some(j - i - 1)
    decreases ts
  {
    var (g', a) := Acquire(g, ts[0]);
    var rest, all := Answers(g', ts[1..]), Answers(g, ts);
    assert all == [a] + rest;
    assert rest[j - 1] == all[j] && forall k :: 0 <= k < |rest| ==> rest[k] == all[k + 1];
    if i > 0 {
      assert rest[i - 1] == all[i];
      GrantCarries(g', ts[1..], i - 1, j - 1);
    } else {
      FirstGrantCarries(g', ts[1..], j - 1);
    }
  }

  /** What is pending are the calls since the last line. */
  lemma {:induction false} PendingSince(g: Gate, ts: seq<int>, i: int)
    requires -1 <= i < |ts| && (i >= 0 ==> Answers(g, ts)[i].Some?)
    requires forall k :: i < k < |ts| ==> Answers(g, ts)[k].None?
    ensures After(g, ts).suppressed == if i < 0 then g.suppressed + |ts| else |ts| - i - 1
    decreases ts
  {
    if ts != [] {
      var (g', a) := Acquire(g, ts[0]);
      var rest, all := Answers(g', ts[1..]), Answers(g, ts);
      assert all == [a] + rest;
      assert forall k :: 0 <= k < |rest| ==> rest[k] == all[k + 1];
      assert a == all[0];
      PendingSince(g', ts[1..], if i > 0 then i - 1 else -1);
    }
  }

  /** A run cut in two is two runs, the second from wherever the first left the gate. */
  lemma {:induction false} AnswersSplit(g: Gate, ts: seq<int>, k: nat)
    requires k <= |ts|
    ensures Answers(g, ts)[..k] == Answers(g, ts[..k])
    ensures Answers(g, ts)[k..] == Answers(After(g, ts[..k]), ts[k..])
    ensures After(g, ts[..k]).windowMs == g.windowMs
    decreases ts
  {
    if k == 0 {
      assert ts[..0] == [] && ts[0..] == ts;
    } else {
      AnswersSplit(Acquire(g, ts[0]).0, ts[1..], k - 1);
      assert ts[..k][1..] == ts[1..][..k - 1] && ts[k..] == ts[1..][k - 1..];
    }
  }

  lemma {:induction false} AfterAppend(g: Gate, ts: seq<int>, us: seq<int>)
    ensures After(g, ts + us) == After(After(g, ts), us)
    decreases ts
  {
    if ts == [] {
      assert ts + us == us;
    } else {
      AfterAppend(Acquire(g, ts[0]).0, ts[1..], us);
      assert (ts + us)[1..] == ts[1..] + us;
    }
  }

  lemma AfterOneOrTwo(g: Gate, t: int)
    ensures After(g, [t]) == Acquire(g, t).0 && After(g, [t, t]) == Acquire(Acquire(g, t).0, t).0
  {
    assert [t][1..] == [] && [t, t][1..] == [t];
    assert After(Acquire(g, t).0, [t]) == Acquire(Acquire(g, t).0, t).0;
  }

  ghost predicate Monotone(ts: seq<int>) {
    forall i, j :: 0 <= i <= j < |ts| ==> ts[i] <= ts[j]
  }

  /** Counted from a window already open, n further lines take n whole windows. */
  lemma {:induction false} GrantsTakeTime(g: Gate, ts: seq<int>)
    requires g.startedAt.Some? && g.windowMs > 0
    requires ts != [] && Monotone(ts) && Grants(Answers(g, ts)) > 0
    ensures Grants(Answers(g, ts)) * g.windowMs <= ts[|ts| - 1] - g.startedAt.value
    decreases ts
  {
    var (g', a) := Acquire(g, ts[0]);
    assert Answers(g, ts)[1..] == Answers(g', ts[1..]);
    if |ts| > 1 && Grants(Answers(g', ts[1..])) > 0 {
      GrantsTakeTime(g', ts[1..]);
    }
  }

  /** With a clock that never runs backwards, calls spanning L milliseconds get at most
      L / window + 1 lines, whatever state the gate was in when they began. */
  lemma {:induction false} LineRate(g: Gate, ts: seq<int>)
    requires g.windowMs > 0 && ts != [] && Monotone(ts)
    ensures Grants(Answers(g, ts)) <= (ts[|ts| - 1] - ts[0]) / g.windowMs + 1
    decreases ts
  {
    var (g', a) := Acquire(g, ts[0]);
    var rest := ts[1..];
    assert Answers(g, ts)[1..] == Answers(g', rest);
    var span, n := ts[|ts| - 1] - ts[0], Grants(Answers(g', rest));
    if rest == [] || n == 0 {
      QuotientBound(0, span, g.windowMs);
    } else if a.Some? {
      GrantsTakeTime(g', rest);
      QuotientBound(n, span, g.windowMs);
    } else {
      LineRate(g', rest);
      var tail := (ts[|ts| - 1] - rest[0]) / g.windowMs;
      QuotientBound(tail, span, g.windowMs);
    }
  }

  lemma AnswersOfStretch(g: Gate, ts: seq<int>, i: nat, j: nat)
    requires i <= j <= |ts|
    ensures Answers(g, ts)[i..j] == Answers(After(g, ts[..i]), ts[i..j])
    ensures After(g, ts[..i]).windowMs == g.windowMs
  {
    AnswersSplit(g, ts, i);
    AnswersSplit(After(g, ts[..i]), ts[i..], j - i);
    assert ts[i..][..j - i] == ts[i..j];
    assert Answers(g, ts)[i..][..j - i] == Answers(g, ts)[i..j];
  }

  /** The same bound for every stretch ts[i..j] inside every run. */
  lemma LineRateOfAnyStretch(g: Gate, ts: seq<int>, i: nat, j: nat)
    requires g.windowMs > 0 && i < j <= |ts| && Monotone(ts)
    ensures Grants(Answers(g, ts)[i..j]) <= (ts[j - 1] - ts[i]) / g.windowMs + 1
  {
    AnswersOfStretch(g, ts, i, j);
    LineRate(After(g, ts[..i]), ts[i..j]);
  }

  lemma QuotientBound(n: nat, x: int, w: int)
    requires w > 0 && n * w <= x
    ensures n <= x / w
  {
    var q := x / w;
    assert x < (q + 1) * w;
    assert n * w < (q + 1) * w;
  }
}
