/** What a fatal leads to: endless runs of the lifecycle, with a clock that goes on and a timer that is not
    starved. */
module FatalLiveness {
  import opened Prelude
  import opened Reasons
  import RateGates
  import opened Lifecycle
  import opened LifecycleSafety

  /** An endless schedule; after the exit it has no effect. */
  type Schedule = nat -> Event

  function StateAt(p: Plan, run: Schedule, n: nat): State {
    if n == 0 then Init(p) else After(p, StateAt(p, run, n - 1), run(n - 1))
  }

  function After(p: Plan, s: State, e: Event): State {
    if s.control.exit.None? then Next(p, s, e) else s
  }

  lemma AfterKeepsInv(p: Plan, s: State, e: Event, s': State)
    requires Inv(p, s) && (s.control.exit.None? ==> Enabled(p, s, e)) && s' == After(p, s, e)
    ensures Inv(p, s')
  {
    if s.control.exit.None? {
      StepKeepsInv(p, s, e);
    }
  }

  /** What one event does to the clock, the deadline and the two flags. */
  lemma AfterControl(p: Plan, s: State, e: Event)
    ensures var c, c' := s.control, After(p, s, e).control;
            && c.now <= c'.now && (c.exit.None? && e.Elapse? ==> c'.now == c.now + e.ms)
            && (c.fatalAt.Some? && c.fatalInProgress ==> c'.fatalAt == c.fatalAt && c'.fatalInProgress)
            && (c'.signalled ==> c.signalled || e.Signal?) && (c'.parentFired ==> c.parentFired || e.ParentPipeEnds?)
            && (c.exit.None? && e.HardTimer? ==> c'.exit.Some?)
  {
    ControlComesFromEvent(p, s, e);
    match e
    case Fatal(kind, reason, at) =>
      LaterFatal(s.control, kind, reason, at);
    case _ =>
  }

  predicate Alive(p: Plan, run: Schedule, n: nat) {
    StateAt(p, run, n).control.exit.None?
  }

  ghost predicate LegalWhileAlive(p: Plan, run: Schedule) {
    forall n: nat :: LegalAt(p, run, n)
  }

  ghost predicate LegalAt(p: Plan, run: Schedule, n: nat) {
    Alive(p, run, n) ==> Enabled(p, StateAt(p, run, n), run(n))
  }

  /** From every moment on, time passes again. */
  ghost predicate TimePasses(run: Schedule) {
    forall n: nat :: MovesFrom(run, n)
  }

  ghost predicate MovesFrom(run: Schedule, n: nat) {
    exists m: nat :: n <= m && Moves(run(m))
  }

  predicate Moves(e: Event) {
    e.Elapse? && e.ms > 0
  }

  ghost predicate DueAgain(p: Plan, run: Schedule, n: nat) {
    exists m: nat :: n <= m && Enabled(p, StateAt(p, run, m), HardTimer)
  }

  ghost predicate KeepsComingDue(p: Plan, run: Schedule, n: nat) {
    forall m: nat :: n <= m ==> DueAgain(p, run, m)
  }

  /** A hard timer that keeps coming due, between other callbacks and their promise jobs, is served at some
      moment, however late: no stronger promise is made. */
  ghost predicate TimerIsServed(p: Plan, run: Schedule) {
    forall n: nat :: KeepsComingDue(p, run, n) ==> exists m: nat :: n <= m && run(m) == HardTimer
  }

  ghost predicate Fair(p: Plan, run: Schedule) {
    LegalWhileAlive(p, run) && TimePasses(run) && TimerIsServed(p, run)
  }

  // ----- one fatal -----

  /** Its line can be written; or its conversion fails, and the rejection comes back as an exception that
      can be reported. */
  predicate Arms(kind: Kind, reason: Reason) {
    reason == Printed(true, true) || (kind == Rejection && reason.Unprintable?)
  }

  /** The handler throws where Node has no other. */
  predicate Crashes(kind: Kind, reason: Reason) {
    kind == Exception && reason != Printed(true, true)
  }

  /** The handler throws between marking the fatal and arming the timer, and what comes back is taken for
      a second fatal. */
  predicate Silences(kind: Kind, reason: Reason) {
    kind == Rejection && reason.Printed? && reason != Printed(true, true)
  }

  function Take(c: Control, kind: Kind, reason: Reason, at: int): Control {
    if kind == Exception then OnException(c, reason, at) else OnRejection(c, reason, at)
  }

  /** The first fatal arms the hard timer and makes the process join its close, or ends the process with
      code 7, or leaves it with no timer, no close and no further fatal handling. */
  lemma FirstFatal(c: Control, kind: Kind, reason: Reason, at: int)
    requires !c.fatalInProgress && c.exit.None? && c.fatalAt.None?
    ensures Arms(kind, reason) || Crashes(kind, reason) || Silences(kind, reason)
    ensures Arms(kind, reason) ==> Take(c, kind, reason, at) == c.(fatalInProgress := true, fatalAt := Some(c.now))
    ensures Crashes(kind, reason) ==> Take(c, kind, reason, at).exit == Some(HANDLER_THREW_EXIT_CODE)
    ensures Silences(kind, reason) ==>
              Take(c, kind, reason, at) == c.(fatalInProgress := true, reentry := RateGates.Acquire(c.reentry, at).0)
  {
  }

  /** A later one ends the process iff it is an exception that cannot be converted, or whose line is due
      and cannot be written; otherwise it leaves at most a mark on the re-entry gate. */
  predicate BreaksHandler(c: Control, kind: Kind, reason: Reason, at: int) {
    kind == Exception && (reason.Unprintable? || (!reason.messageLogs && RateGates.Open(c.reentry, at)))
  }

  /** The clock readings at which a later fatal asks the re-entry gate for its line. The conversion comes
      first; and a rejection whose granted line cannot be written comes back as an exception. */
  function LineAskedAt(c: Control, kind: Kind, reason: Reason, at: int): seq<int> {
    if kind == Exception && reason.Unprintable? then []
    else if kind == Rejection && reason.Printed? && !reason.messageLogs && RateGates.Open(c.reentry, at) then [at, at]
    else [at]
  }

  lemma LaterFatal(c: Control, kind: Kind, reason: Reason, at: int)
    ensures var c' := Take(c, kind, reason, at);
            && c'.now == c.now && c'.joined == c.joined
            && (c.fatalAt.Some? && c.fatalInProgress ==> c'.fatalAt == c.fatalAt && c'.fatalInProgress)
            && (c.fatalInProgress ==>
                  && c'.fatalAt == c.fatalAt && c'.fatalInProgress
                  && c'.reentry == RateGates.After(c.reentry, LineAskedAt(c, kind, reason, at))
                  && (if BreaksHandler(c, kind, reason, at) then c'.exit == Some(HANDLER_THREW_EXIT_CODE) else c'.exit == c.exit))
  {
    ListenerFacts(c, reason, at);
    RateGates.AfterOneOrTwo(c.reentry, at);
    var (c', threw) := Listener(c, reason, at);
    if kind == Rejection && threw {
      ListenerFacts(c', PLAIN, at);
    }
  }

  lemma ListenerFacts(c: Control, reason: Reason, at: int)
    ensures var (c', threw) := Listener(c, reason, at);
            && c'.now == c.now && c'.joined == c.joined && c'.exit == c.exit
            && (c.fatalInProgress ==>
                  && c'.fatalInProgress && c'.fatalAt == c.fatalAt
                  && (threw <==> reason.Unprintable? || (!ShortLine(reason) && RateGates.Open(c.reentry, at))))
  {
  }

  /** A fatal has armed the hard timer. */
  predicate Armed(p: Plan, run: Schedule, n: nat) {
    StateAt(p, run, n).control.fatalAt.Some? && StateAt(p, run, n).control.fatalInProgress
  }

  function DeadlineAt(p: Plan, run: Schedule, n: nat): nat
    requires Armed(p, run, n)
  {
    StateAt(p, run, n).control.fatalAt.value + FATAL_HARD_EXIT_MS
  }

  lemma {:induction false} InvAt(p: Plan, run: Schedule, n: nat)
    requires WellOrdered(p) && LegalWhileAlive(p, run)
    ensures Inv(p, StateAt(p, run, n))
  {
    if n == 0 {
      InitInv(p);
    } else {
      var s := StateAt(p, run, n - 1);
      InvAt(p, run, n - 1);
      assert LegalAt(p, run, n - 1);
      AfterKeepsInv(p, s, run(n - 1), StateAt(p, run, n));
    }
  }

  /** The clock never goes back, and the first fatal keeps its deadline. */
  lemma {:induction false} ClockAndDeadline(p: Plan, run: Schedule, n: nat, m: nat)
    requires n <= m
    ensures StateAt(p, run, n).control.now <= StateAt(p, run, m).control.now
    ensures Armed(p, run, n) ==> Armed(p, run, m) && DeadlineAt(p, run, m) == DeadlineAt(p, run, n)
    decreases m
  {
    if n < m {
      ClockAndDeadline(p, run, n, m - 1);
      AfterControl(p, StateAt(p, run, m - 1), run(m - 1));
    }
  }

  lemma ClockMoves(p: Plan, run: Schedule, n: nat, k: nat)
    requires n <= k && Moves(run(k)) && Alive(p, run, k)
    ensures StateAt(p, run, n).control.now < StateAt(p, run, k + 1).control.now
  {
    ClockAndDeadline(p, run, n, k);
    AfterControl(p, StateAt(p, run, k), run(k));
  }

  ghost predicate ForeverAlive(p: Plan, run: Schedule, n: nat) {
    forall k: nat :: n <= k ==> Alive(p, run, k)
  }

  function NowAt(p: Plan, run: Schedule, n: nat): nat {
    StateAt(p, run, n).control.now
  }

  lemma NextMove(p: Plan, run: Schedule, from: nat, n: nat) returns (m: nat)
    requires TimePasses(run) && ForeverAlive(p, run, from) && from <= n
    ensures n <= m && NowAt(p, run, n) < NowAt(p, run, m)
  {
    assert MovesFrom(run, n);
    var k: nat :| n <= k && Moves(run(k));
    assert Alive(p, run, k);
    ClockMoves(p, run, n, k);
    m := k + 1;
  }

  /** While nothing ends the process, its clock reaches any reading. */
  lemma {:induction false} ClockReaches(p: Plan, run: Schedule, from: nat, n: nat, reading: nat) returns (m: nat)
    requires TimePasses(run) && ForeverAlive(p, run, from) && from <= n
    ensures n <= m && NowAt(p, run, m) >= reading
    decreases reading - NowAt(p, run, n)
  {
    m := n;
    if NowAt(p, run, n) < reading {
      m := NextMove(p, run, from, n);
      m := ClockReaches(p, run, from, m, reading);
    }
  }

  /** Whenever time passes no promise job is queued, so a timer past its deadline could be served there. */
  lemma DueWhereTimePasses(p: Plan, run: Schedule, n: nat, due: nat, k: nat)
    requires LegalAt(p, run, k) && Moves(run(k)) && Alive(p, run, k)
    requires n <= due <= k && Armed(p, run, n) && StateAt(p, run, due).control.now >= DeadlineAt(p, run, n)
    ensures Enabled(p, StateAt(p, run, k), HardTimer)
  {
    ClockAndDeadline(p, run, n, k);
    ClockAndDeadline(p, run, due, k);
  }

  lemma ServedTimerExits(p: Plan, run: Schedule, k: nat)
    requires run(k) == HardTimer
    ensures !Alive(p, run, k + 1)
  {
    AfterControl(p, StateAt(p, run, k), run(k));
  }

  lemma NotForeverAlive(p: Plan, run: Schedule, n: nat)
    requires Fair(p, run) && Armed(p, run, n)
    ensures !ForeverAlive(p, run, n)
  {
    if ForeverAlive(p, run, n) {
      var due := ClockReaches(p, run, n, n, DeadlineAt(p, run, n));
      forall m: nat | due <= m ensures DueAgain(p, run, m) {
        assert MovesFrom(run, m);
        var k: nat :| m <= k && Moves(run(k));
        assert LegalAt(p, run, k) && Alive(p, run, k);
        DueWhereTimePasses(p, run, n, due, k);
      }
      assert KeepsComingDue(p, run, due);
      var k: nat :| due <= k && run(k) == HardTimer;
      ServedTimerExits(p, run, k);
    }
  }

  /** In every fair run, once a fatal has armed the timer the process exits, with the code its end calls
      for. */
  lemma FatalEndsTheProcess(p: Plan, run: Schedule, n: nat) returns (m: nat)
    requires WellOrdered(p) && Fair(p, run) && Armed(p, run, n)
    ensures n <= m && var s := StateAt(p, run, m); s.control.exit == Some(CodeOf(s.control, s.close))
  {
    NotForeverAlive(p, run, n);
    m :| n <= m && !Alive(p, run, m);
    InvAt(p, run, m);
  }

  /** No signal, and stdin is not closed. */
  ghost predicate Undisturbed(run: Schedule) {
    forall k: nat :: !run(k).Signal? && !run(k).ParentPipeEnds?
  }

  lemma {:induction false} FlagsComeFromSchedule(p: Plan, run: Schedule, n: nat)
    requires Undisturbed(run)
    ensures !StateAt(p, run, n).control.signalled && !StateAt(p, run, n).control.parentFired
  {
    if n > 0 {
      FlagsComeFromSchedule(p, run, n - 1);
      AfterControl(p, StateAt(p, run, n - 1), run(n - 1));
    }
  }

  /** Without a signal or a pipe end that exit is non-zero, however the close hangs or fails: 7 iff a later
      fatal broke the handler, else 1. */
  lemma FatalEndsNonZero(p: Plan, run: Schedule, n: nat) returns (m: nat)
    requires WellOrdered(p) && Fair(p, run) && Undisturbed(run) && Armed(p, run, n)
    ensures n <= m && var c := StateAt(p, run, m).control;
            c.exit == Some(if c.crashed then HANDLER_THREW_EXIT_CODE else FATAL_EXIT_CODE)
  {
    m := FatalEndsTheProcess(p, run, n);
    InvAt(p, run, m);
    FlagsComeFromSchedule(p, run, m);
  }

  // ----- the fatal that silences the guards -----

  /** Marked, and nothing follows from it. */
  predicate Silenced(c: Control) {
    c.fatalInProgress && c.fatalAt.None? && !c.joined && !c.signalled && !c.parentFired
  }

  predicate BreaksAt(p: Plan, run: Schedule, k: nat) {
    run(k).Fatal? && BreaksHandler(StateAt(p, run, k).control, run(k).kind, run(k).reason, run(k).at)
  }

  lemma SilencedStep(p: Plan, s: State, e: Event, s': State)
    requires Inv(p, s) && Silenced(s.control) && Enabled(p, s, e) && !e.Signal? && !e.ParentPipeEnds? && s' == After(p, s, e)
    ensures Silenced(s'.control)
    ensures if e.Fatal? && BreaksHandler(s.control, e.kind, e.reason, e.at)
            then s'.control.exit == Some(HANDLER_THREW_EXIT_CODE) else s'.control.exit.None?
  {
    if e.Fatal? {
      LaterFatal(s.control, e.kind, e.reason, e.at);
      FatalKeepsFlags(s.control, e.kind, e.reason, e.at);
    }
  }

  predicate SilencedAt(p: Plan, run: Schedule, n: nat) {
    Silenced(StateAt(p, run, n).control) && Alive(p, run, n)
  }

  lemma SilencedOnce(p: Plan, run: Schedule, k: nat)
    requires WellOrdered(p) && LegalWhileAlive(p, run) && Undisturbed(run) && SilencedAt(p, run, k)
    ensures if BreaksAt(p, run, k) then StateAt(p, run, k + 1).control.exit == Some(HANDLER_THREW_EXIT_CODE)
            else SilencedAt(p, run, k + 1)
  {
    InvAt(p, run, k);
    assert LegalAt(p, run, k);
    SilencedStep(p, StateAt(p, run, k), run(k), StateAt(p, run, k + 1));
  }

  lemma {:induction false} StaysSilenced(p: Plan, run: Schedule, n: nat, m: nat)
    requires WellOrdered(p) && LegalWhileAlive(p, run) && Undisturbed(run) && n <= m && SilencedAt(p, run, n)
    requires forall k: nat :: n <= k < m ==> !BreaksAt(p, run, k)
    ensures SilencedAt(p, run, m)
    decreases m
  {
    if n < m {
      StaysSilenced(p, run, n, m - 1);
      SilencedOnce(p, run, m - 1);
    }
  }

  lemma {:induction false} FirstBreak(p: Plan, run: Schedule, n: nat, k: nat) returns (b: nat)
    requires n <= k && BreaksAt(p, run, k)
    ensures n <= b <= k && BreaksAt(p, run, b) && forall i: nat :: n <= i < b ==> !BreaksAt(p, run, i)
    decreases k
  {
    b := k;
    if i: nat :| n <= i < k && BreaksAt(p, run, i) {
      b := FirstBreak(p, run, n, i);
    }
  }

  /** A silenced process, left alone, ends iff some later uncaught exception breaks the handler, and then
      with code 7: no timer, no close and no other fatal will end it. */
  lemma SilencedEndsIff(p: Plan, run: Schedule, n: nat)
    requires WellOrdered(p) && LegalWhileAlive(p, run) && Undisturbed(run)
    requires SilencedAt(p, run, n)
    ensures (exists m: nat :: n <= m && !Alive(p, run, m)) <==> (exists k: nat :: n <= k && BreaksAt(p, run, k))
    ensures forall m: nat :: n <= m && !Alive(p, run, m) ==>
              StateAt(p, run, m).control.exit == Some(HANDLER_THREW_EXIT_CODE)
  {
    forall m: nat | n <= m && !Alive(p, run, m)
      ensures StateAt(p, run, m).control.exit == Some(HANDLER_THREW_EXIT_CODE) && exists k: nat :: n <= k && BreaksAt(p, run, k)
    {
      if k: nat :| n <= k < m && BreaksAt(p, run, k) {
        var b := FirstBreak(p, run, n, k);
        StaysSilenced(p, run, n, b);
        SilencedOnce(p, run, b);
        StaysExited(p, run, b + 1, m);
      } else {
        StaysSilenced(p, run, n, m);
      }
    }
    if k: nat :| n <= k && BreaksAt(p, run, k) {
      var b := FirstBreak(p, run, n, k);
      StaysSilenced(p, run, n, b);
      SilencedOnce(p, run, b);
      assert !Alive(p, run, b + 1);
    }
  }

  lemma {:induction false} StaysExited(p: Plan, run: Schedule, n: nat, m: nat)
    requires n <= m && !Alive(p, run, n)
    ensures StateAt(p, run, m) == StateAt(p, run, n)
    decreases m
  {
    if n < m {
      StaysExited(p, run, n, m - 1);
    }
  }

  /** The first fatal of a process left alone decides: one whose line can be written, or a rejection that
      cannot be converted, ends it non-zero; another uncaught exception ends it at once with 7, its database
      open; any other rejection leaves it running, iff no later exception breaks the handler. */
  lemma FirstFatalDecides(p: Plan, run: Schedule, n: nat)
    requires WellOrdered(p) && Fair(p, run) && Undisturbed(run)
    requires Alive(p, run, n) && run(n).Fatal? && !StateAt(p, run, n).control.fatalInProgress
    ensures var (kind, reason) := (run(n).kind, run(n).reason);
            && (Arms(kind, reason) ==> exists m: nat :: n < m && EndsNonZero(p, run, m))
            && (Crashes(kind, reason) ==> StateAt(p, run, n + 1).control.exit == Some(HANDLER_THREW_EXIT_CODE)
                                          && StateAt(p, run, n + 1).jobs.dbOpen)
            && (Silences(kind, reason) ==> ((exists m: nat :: n < m && !Alive(p, run, m))
                                            <==> exists k: nat :: n < k && BreaksAt(p, run, k)))
  {
    var (kind, reason) := (run(n).kind, run(n).reason);
    FatalTakesOver(p, run, n);
    if Arms(kind, reason) {
      var m := FatalEndsNonZero(p, run, n + 1);
      assert EndsNonZero(p, run, m);
    } else if Silences(kind, reason) {
      SilencedEndsIff(p, run, n + 1);
    }
  }

  lemma FatalTakesOver(p: Plan, run: Schedule, n: nat)
    requires WellOrdered(p) && LegalWhileAlive(p, run) && Undisturbed(run)
    requires Alive(p, run, n) && run(n).Fatal? && !StateAt(p, run, n).control.fatalInProgress
    ensures Arms(run(n).kind, run(n).reason) ==> Armed(p, run, n + 1)
    ensures Crashes(run(n).kind, run(n).reason) ==>
              StateAt(p, run, n + 1).control.exit == Some(HANDLER_THREW_EXIT_CODE) && StateAt(p, run, n + 1).jobs.dbOpen
    ensures Silences(run(n).kind, run(n).reason) ==> SilencedAt(p, run, n + 1)
  {
    var e := run(n);
    InvAt(p, run, n);
    FlagsComeFromSchedule(p, run, n);
    assert LegalAt(p, run, n);
    FirstFatalFrom(p, StateAt(p, run, n), e, StateAt(p, run, n + 1));
  }

  lemma FirstFatalFrom(p: Plan, s: State, e: Event, s': State)
    requires Inv(p, s) && Enabled(p, s, e) && e.Fatal? && !s.control.fatalInProgress && s' == After(p, s, e)
    requires !s.control.signalled && !s.control.parentFired
    ensures s' == s.(control := Take(s.control, e.kind, e.reason, e.at)) && s'.jobs.dbOpen
    ensures Arms(e.kind, e.reason) ==> s'.control.fatalAt.Some? && s'.control.fatalInProgress
    ensures Crashes(e.kind, e.reason) ==> s'.control.exit == Some(HANDLER_THREW_EXIT_CODE)
    ensures Silences(e.kind, e.reason) ==> Silenced(s'.control) && s'.control.exit.None?
  {
    CallbackFindsDbOpen(p, s, e);
    FirstFatal(s.control, e.kind, e.reason, e.at);
  }

  predicate EndsNonZero(p: Plan, run: Schedule, m: nat) {
    StateAt(p, run, m).control.exit in {Some(FATAL_EXIT_CODE), Some(HANDLER_THREW_EXIT_CODE)}
  }

  // ----- such runs exist -----

  /** A rejection with an Error whose message cannot be logged, and then only the clock. */
  function LeftRunning(k: nat): Event {
    if k == 0 then Fatal(Rejection, Printed(false, true), 0) else Elapse(1)
  }

  /** That process is never ended: not by its close, which is not begun, nor by a timer, which is not set. */
  lemma LeftRunningForever(p: Plan)
    requires WellOrdered(p)
    ensures Fair(p, LeftRunning) && ForeverAlive(p, LeftRunning, 0)
    ensures forall n: nat :: n > 0 ==> StateAt(p, LeftRunning, n).control.fatalInProgress && StateAt(p, LeftRunning, n).close.NotStarted?
  {
    forall n: nat ensures LeftRunningAt(p, n) && LegalAt(p, LeftRunning, n) && MovesFrom(LeftRunning, n) {
      LeftRunningFrom(p, n);
      assert Moves(LeftRunning(n + 1));
    }
    forall n: nat ensures Alive(p, LeftRunning, n) && !Enabled(p, StateAt(p, LeftRunning, n), HardTimer) {
      assert LeftRunningAt(p, n);
    }
    forall n: nat ensures !KeepsComingDue(p, LeftRunning, n) {
      assert !DueAgain(p, LeftRunning, n);
    }
    forall n: nat | n > 0
      ensures StateAt(p, LeftRunning, n).control.fatalInProgress && StateAt(p, LeftRunning, n).close.NotStarted?
    {
      assert LeftRunningAt(p, n);
    }
  }

  predicate LeftRunningAt(p: Plan, n: nat) {
    var s := StateAt(p, LeftRunning, n);
    && s.control.exit.None? && s.control.fatalAt.None? && s.close.NotStarted?
    && (n > 0 ==> s.control.fatalInProgress)
  }

  lemma {:induction false} LeftRunningFrom(p: Plan, n: nat)
    ensures LeftRunningAt(p, n)
  {
    if n == 1 {
      FirstFatal(Init(p).control, Rejection, Printed(false, true), 0);
      assert StateAt(p, LeftRunning, 0) == Init(p);
    } else if n > 1 {
      LeftRunningFrom(p, n - 1);
    }
  }

  /** An exception that cannot be converted, while the close of a first fatal drains: code 7, with the
      database open. */
  lemma CrashDuringDrain(p: Plan) returns (es: seq<Event>)
    requires WellOrdered(p)
    ensures |es| > 2 && es[..2] == [Fatal(Exception, PLAIN, 0), FatalJoinsClose] && Legal(p, Init(p), es)
    ensures var s := Run(p, Init(p), es); s.control.exit == Some(HANDLER_THREW_EXIT_CODE) && s.jobs.dbOpen
  {
    var fatal, second := Fatal(Exception, PLAIN, 0), Fatal(Exception, Unprintable, 0);
    RunOfTwo(p, Init(p), fatal, FatalJoinsClose);
    var before := DrainFrom(p, [fatal, FatalJoinsClose]);
    var s := Run(p, Init(p), before);
    LastSteps(p);
    InitInv(p);
    RunKeepsInv(p, Init(p), before);
    CallbackFindsDbOpen(p, s, second);
    LaterFatal(s.control, Exception, Unprintable, 0);
    RunSnoc(p, Init(p), before, second);
    es := before + [second];
    assert es[..2] == before[..2];
  }

  /** A close that hangs in its drain: one fatal, the steps before, and then only the clock until the hard
      timer is served. */
  function HungClose(p: Plan): Schedule {
    (k: nat) =>
      if k == 0 then Fatal(Exception, PLAIN, 0) else if k == 1 then FatalJoinsClose
      else if k < |p.steps| then StepDone
      else if k == |p.steps| + 1 then HardTimer else Elapse(FATAL_HARD_EXIT_MS)
  }

  lemma {:induction false} HungAt(p: Plan, k: nat)
    requires WellOrdered(p) && 2 <= k <= |p.steps|
    ensures var s := StateAt(p, HungClose(p), k);
            && s.close == Running(k - 2) && s.control.joined && s.control.exit.None?
            && s.control.fatalAt == Some(0) && s.control.now == 0
  {
    var run := HungClose(p);
    if k == 2 {
      FirstFatal(Init(p).control, Exception, PLAIN, 0);
      assert StateAt(p, run, 1) == Next(p, Init(p), run(0));
      assert StateAt(p, run, 2) == Next(p, StateAt(p, run, 1), FatalJoinsClose);
    } else {
      HungAt(p, k - 1);
      StepBeforeDrain(p, k - 3);
      assert StateAt(p, run, k) == Next(p, StateAt(p, run, k - 1), StepDone);
    }
  }

  /** Such runs are fair, and the process is ended at its deadline. */
  lemma HungCloseIsEnded(p: Plan)
    requires WellOrdered(p)
    ensures Fair(p, HungClose(p))
    ensures var s := StateAt(p, HungClose(p), |p.steps| + 2);
            s.control.exit == Some(FATAL_EXIT_CODE) && s.close == Running(|p.steps| - 2) && s.control.now == 10_000
  {
    var run, n := HungClose(p), |p.steps|;
    HungAt(p, n);
    LastSteps(p);
    assert StateAt(p, run, n + 1) == Next(p, StateAt(p, run, n), Elapse(FATAL_HARD_EXIT_MS));
    assert StateAt(p, run, n + 2) == Next(p, StateAt(p, run, n + 1), HardTimer);
    forall k: nat ensures MovesFrom(run, k) {
      assert Moves(run(k + n + 2));
    }
    forall k: nat ensures LegalAt(p, run, k) {
      HungIsLegal(p, k);
    }
    forall k: nat ensures !KeepsComingDue(p, run, k) {
      forall m: nat | k + n + 2 <= m ensures !Enabled(p, StateAt(p, run, m), HardTimer) {
        StaysExited(p, run, n + 2, m);
      }
      assert !DueAgain(p, run, k + n + 2);
    }
  }

  lemma HungIsLegal(p: Plan, k: nat)
    requires WellOrdered(p)
    ensures LegalAt(p, HungClose(p), k)
  {
    var run, n := HungClose(p), |p.steps|;
    if k == 1 {
      FirstFatal(Init(p).control, Exception, PLAIN, 0);
      assert StateAt(p, run, 1) == Next(p, Init(p), run(0));
    } else if 2 <= k < n {
      HungAt(p, k);
      StepBeforeDrain(p, k - 2);
    } else if k >= n {
      HungAt(p, n);
      LastSteps(p);
      assert StateAt(p, run, n + 1) == Next(p, StateAt(p, run, n), Elapse(FATAL_HARD_EXIT_MS));
      assert StateAt(p, run, n + 2) == Next(p, StateAt(p, run, n + 1), HardTimer);
      if k >= n + 2 {
        StaysExited(p, run, n + 2, k);
      }
    }
  }
}
