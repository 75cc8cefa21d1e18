/** The reporter shared by every socket: one gate per event name, made on first use. */
module HandlerReports {
  import opened Prelude
  import opened Reasons
  import opened RateGates

  const HANDLER_FAILURE_LOG_WINDOW_MS := 5_000

  /** A handler failure given to the reporter: which socket and event, at which clock reading, and why. */
  datatype Failure = Failure(socket: string, event: string, at: int, reason: Reason)

  function GateFor(gates: map<string, Gate>, event: string): Gate {
    if event in gates then gates[event] else Fresh(HANDLER_FAILURE_LOG_WINDOW_MS)
  }

  /** The reporter itself throws: the reason cannot be converted, or the gate grants a line that cannot
      be written. */
  predicate BadReport(reason: Reason, g: Gate, at: int) {
    reason.Unprintable? || (!FullLine(reason) && Open(g, at))
  }

  /** The gates after one failure, and the gate's answer, None for a reason that never reached it. */
  function ReportTo(gates: map<string, Gate>, f: Failure): (map<string, Gate>, Option<nat>) {
    if f.reason.Unprintable? then (gates, None)
    else
      var (g, line) := Acquire(GateFor(gates, f.event), f.at);
      (gates[f.event := g], line)
  }

  /** The shared map of gate objects. */
  class Reporter {
    var gates: map<string, RateGate>

    constructor ()
      ensures Valid() && View() == map[] && gates == map[]
    {
      gates := map[];
    }

    /** No two events share a gate, and all have the one window. */
    ghost predicate Valid()
      reads this, gates.Values
    {
      && (forall e, f :: e in gates && f in gates && e != f ==> gates[e] != gates[f])
      && (forall e :: e in gates ==> gates[e].windowMs == HANDLER_FAILURE_LOG_WINDOW_MS)
    }

    ghost function View(): map<string, Gate>
      reads this, gates.Values
    {
      map e | e in gates :: gates[e].State()
    }

    /** None: nothing was logged. Some(n): a line was due, saying n others went unlogged; it was written
        unless the reporter threw. */
    method Report(f: Failure) returns (line: Option<nat>, threw: bool)
      requires Valid()
      modifies this, gates.Values
      ensures Valid() && fresh(gates.Values - old(gates.Values))
      ensures (View(), line) == ReportTo(old(View()), f)
      ensures threw == BadReport(f.reason, GateFor(old(View()), f.event), f.at)
    {
      ghost var before := View();
      if f.reason.Unprintable? {
        line, threw := None, true;
        assert View() == before;
        return;
      }
      if f.event !in gates {
        var made := new RateGate(HANDLER_FAILURE_LOG_WINDOW_MS);
        gates := gates[f.event := made];
      }
      var gate := gates[f.event];
      line := gate.TryAcquire(f.at);
      threw := line.Some? && !FullLine(f.reason);
      assert View() == ReportTo(before, f).0;
    }

    /** A whole flood, failure by failure, as the sockets produce it. */
    method ReportAll(fs: seq<Failure>) returns (lines: seq<Option<nat>>, threw: seq<bool>)
      requires Valid() && gates == map[]
      modifies this
      ensures Valid() && View() == GatesAfter(fs) && lines == Lines(fs)
      ensures |threw| == |fs| && forall k :: 0 <= k < |fs| ==> threw[k] == ThrowsAt(fs, k)
    {
      lines, threw := [], [];
      var i := 0;
      while i < |fs|
        invariant 0 <= i <= |fs| && Valid() && fresh(gates.Values)
        invariant View() == GatesAfter(fs[..i]) && lines == Lines(fs[..i])
        invariant |threw| == i && forall k :: 0 <= k < i ==> threw[k] == ThrowsAt(fs, k)
      {
        var line, bad := Report(fs[i]);
        lines, threw := lines + [line], threw + [bad];
        assert Front(fs[..i + 1]) == fs[..i];
        i := i + 1;
      }
      assert fs[..i] == fs;
    }
  }

  function GatesAfter(fs: seq<Failure>): map<string, Gate> {
    if fs == [] then map[] else ReportTo(GatesAfter(Front(fs)), Last(fs)).0
  }

  function Lines(fs: seq<Failure>): (r: seq<Option<nat>>)
    ensures |r| == |fs|
  {
    if fs == [] then [] else Lines(Front(fs)) + [ReportTo(GatesAfter(Front(fs)), Last(fs)).1]
  }

  predicate ThrowsAt(fs: seq<Failure>, k: nat)
    requires k < |fs|
  {
    BadReport(fs[k].reason, GateFor(GatesAfter(fs[..k]), fs[k].event), fs[k].at)
  }

  predicate Reaches(f: Failure, event: string) {
    f.event == event && f.reason.Printed?
  }

  /** The clock readings of one event's failures that reach its gate, over all sockets. */
  function TimesOf(fs: seq<Failure>, event: string): seq<int> {
    if fs == [] then []
    else TimesOf(Front(fs), event) + if Reaches(Last(fs), event) then [Last(fs).at] else []
  }

  /** The answers they got. */
  function LinesOf(fs: seq<Failure>, event: string): seq<Option<nat>> {
    if fs == [] then []
    else LinesOf(Front(fs), event) + if Reaches(Last(fs), event) then [Last(Lines(fs))] else []
  }

  function ReachesAt(fs: seq<Failure>, event: string): nat -> bool {
    (k: nat) => k < |fs| && fs[k].event == event && !fs[k].reason.Unprintable?
  }

  /** Both list exactly the failures of that event that can be converted, on whatever socket, in order. */
  lemma {:induction false} ReachingByIndex(fs: seq<Failure>, n: nat, event: string)
    requires n <= |fs|
    ensures var (times, at) := (TimesOf(fs[..n], event), Indices(n, ReachesAt(fs, event)));
            |at| == |times| && forall i :: 0 <= i < |at| ==> times[i] == fs[at[i]].at
    ensures var (lines, at) := (LinesOf(fs[..n], event), Indices(n, ReachesAt(fs, event)));
            |at| == |lines| && forall i :: 0 <= i < |at| ==> lines[i] == Lines(fs[..n])[at[i]]
  {
    if n > 0 {
      ReachingByIndex(fs, n - 1, event);
      assert Front(fs[..n]) == fs[..n - 1];
    }
  }

  lemma {:induction false} AnswersSnoc(g: Gate, ts: seq<int>, t: int)
    ensures After(g, ts + [t]) == Acquire(After(g, ts), t).0
    ensures Answers(g, ts + [t]) == Answers(g, ts) + [Acquire(After(g, ts), t).1]
    decreases ts
  {
    if ts == [] {
      assert After(g, [t]) == After(Acquire(g, t).0, []);
    } else {
      AnswersSnoc(Acquire(g, ts[0]).0, ts[1..], t);
      assert (ts + [t])[1..] == ts[1..] + [t];
    }
  }

  /** However the sockets and events interleave, each event name is served by a gate of its own:
      its failures get exactly the answers a private gate would have given them. */
  lemma {:induction false} EachEventHasItsOwnGate(fs: seq<Failure>, event: string)
    ensures var private := Fresh(HANDLER_FAILURE_LOG_WINDOW_MS);
            && LinesOf(fs, event) == Answers(private, TimesOf(fs, event))
            && GateFor(GatesAfter(fs), event) == After(private, TimesOf(fs, event))
  {
    if fs != [] {
      EachEventHasItsOwnGate(Front(fs), event);
      AnswersSnoc(Fresh(HANDLER_FAILURE_LOG_WINDOW_MS), TimesOf(Front(fs), event), Last(fs).at);
      if !Reaches(Last(fs), event) {
        assert TimesOf(fs, event) == TimesOf(Front(fs), event);
        assert LinesOf(fs, event) == LinesOf(Front(fs), event);
      }
    }
  }

  /** A line due for an event says exactly how many failures of that event, on any sockets, reached the
      gate since its last line; and what its gate holds are those since the last one. */
  lemma LinesCarryTheirCounts(fs: seq<Failure>, event: string, i: int, j: nat)
    requires -1 <= i < j <= |LinesOf(fs, event)| && (i >= 0 ==> LinesOf(fs, event)[i].Some?)
    requires forall k :: i < k < j ==> LinesOf(fs, event)[k].None?
    ensures j < |LinesOf(fs, event)| && LinesOf(fs, event)[j].Some? ==> LinesOf(fs, event)[j] == Some(j - i - 1)
    ensures j == |LinesOf(fs, event)| ==> GateFor(GatesAfter(fs), event).suppressed == j - i - 1
  {
    var private, ts := Fresh(HANDLER_FAILURE_LOG_WINDOW_MS), TimesOf(fs, event);
    EachEventHasItsOwnGate(fs, event);
    if j == |ts| {
      PendingSince(private, ts, i);
    } else if LinesOf(fs, event)[j].Some? {
      if i < 0 {
        FirstGrantCarries(private, ts, j);
      } else {
        GrantCarries(private, ts, i, j);
      }
    }
  }

  /** Which reports throw, in terms of the failures alone: an unconvertible reason always; one whose line
      cannot be written iff a line is due, that is, iff none was granted to its event yet or the last is a
      whole window old. */
  lemma ThrowsIff(fs: seq<Failure>, k: nat)
    requires k < |fs|
    ensures var f, last := fs[k], LastGrant(Fresh(HANDLER_FAILURE_LOG_WINDOW_MS), TimesOf(fs[..k], fs[k].event));
            ThrowsAt(fs, k) <==> f.reason.Unprintable?
                                 || (!(f.reason.messageLogs && f.reason.stackLogs) && (last.None? || f.at - last.value >= HANDLER_FAILURE_LOG_WINDOW_MS))
  {
    EachEventHasItsOwnGate(fs[..k], fs[k].event);
    OpenIff(Fresh(HANDLER_FAILURE_LOG_WINDOW_MS), TimesOf(fs[..k], fs[k].event), fs[k].at);
  }

  // ----- what becomes of the counts -----

  /** Lines written, counts printed on them, and what a granted line that could not be written takes with
      it: itself and its count. */
  datatype Tally = Tally(lines: nat, printed: nat, lost: nat)

  function TallyOf(fs: seq<Failure>, event: string): Tally {
    if fs == [] then Tally(0, 0, 0)
    else
      var t, line := TallyOf(Front(fs), event), Last(Lines(fs));
      if !Reaches(Last(fs), event) || line.None? then t
      else if FullLine(Last(fs).reason) then t.(lines := t.lines + 1, printed := t.printed + line.value)
      else t.(lost := t.lost + 1 + line.value)
  }

  lemma {:induction false} GrantsSnoc(answers: seq<Option<nat>>, a: Option<nat>)
    ensures Grants(answers + [a]) == Grants(answers) + if a.Some? then 1 else 0
    ensures Reported(answers + [a]) == Reported(answers) + if a.Some? then a.value else 0
  {
    if answers == [] {
      assert ([] + [a])[1..] == [];
    } else {
      GrantsSnoc(answers[1..], a);
      assert (answers + [a])[1..] == answers[1..] + [a];
    }
  }

  lemma {:induction false} TallyIsAll(fs: seq<Failure>, event: string)
    ensures var t := TallyOf(fs, event);
            t.lines + t.printed + t.lost == Grants(LinesOf(fs, event)) + Reported(LinesOf(fs, event))
  {
    if fs != [] {
      TallyIsAll(Front(fs), event);
      if Reaches(Last(fs), event) {
        GrantsSnoc(LinesOf(Front(fs), event), Last(Lines(fs)));
      } else {
        assert LinesOf(fs, event) == LinesOf(Front(fs), event);
      }
    }
  }

  lemma {:induction false} NothingLost(fs: seq<Failure>, event: string)
    requires forall k :: 0 <= k < |fs| && Reaches(fs[k], event) ==> FullLine(fs[k].reason)
    ensures TallyOf(fs, event).lost == 0
  {
    if fs != [] {
      NothingLost(Front(fs), event);
    }
  }

  /** Failures of one event that reach its gate, on all sockets together = lines written + suppressed
      counts printed on those lines + what unwritable lines took with them + what the gate still holds for
      the next line; and if every line can be written, nothing is taken. */
  lemma {:induction false} FloodIsCounted(fs: seq<Failure>, event: string)
    ensures var t := TallyOf(fs, event);
            && |TimesOf(fs, event)| == t.lines + t.printed + t.lost + GateFor(GatesAfter(fs), event).suppressed
            && ((forall k :: 0 <= k < |fs| && Reaches(fs[k], event) ==> FullLine(fs[k].reason)) ==> t.lost == 0)
  {
    EachEventHasItsOwnGate(fs, event);
    Conservation(Fresh(HANDLER_FAILURE_LOG_WINDOW_MS), TimesOf(fs, event));
    TallyIsAll(fs, event);
    if forall k :: 0 <= k < |fs| && Reaches(fs[k], event) ==> FullLine(fs[k].reason) {
      NothingLost(fs, event);
    }
  }

  /** A count lost: two failures that can be logged, and after the window one that cannot. The second was
      to be counted on its line. */
  lemma CountsCanBeLost(event: string)
    ensures var fs := [Failure("a", event, 0, PLAIN), Failure("b", event, 1, PLAIN), Failure("c", event, 5_000, Printed(false, true))];
            TallyOf(fs, event) == Tally(1, 0, 2) && GateFor(GatesAfter(fs), event).suppressed == 0
  {
    var fs := [Failure("a", event, 0, PLAIN), Failure("b", event, 1, PLAIN), Failure("c", event, 5_000, Printed(false, true))];
    var two := Front(fs);
    assert two == [fs[0], fs[1]] && Front(two) == [fs[0]] && Front([fs[0]]) == [];
    assert ReportTo(map[], fs[0]) == (map[event := Gate(HANDLER_FAILURE_LOG_WINDOW_MS, Some(0), 0)], Some(0));
    assert GatesAfter([fs[0]]) == map[event := Gate(HANDLER_FAILURE_LOG_WINDOW_MS, Some(0), 0)] && Lines([fs[0]]) == [Some(0)];
    assert TallyOf([fs[0]], event) == Tally(1, 0, 0);
    assert GateFor(GatesAfter(two), event) == Gate(HANDLER_FAILURE_LOG_WINDOW_MS, Some(0), 1) && Lines(two) == [Some(0), None];
    assert TallyOf(two, event) == Tally(1, 0, 0);
  }
}
