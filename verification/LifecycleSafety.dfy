/** What every run of the process keeps: timers against the database, refunds, exit codes. */
module LifecycleSafety {
  import opened Prelude
  import opened Reasons
  import opened RateGates
  import opened Sweeps
  import opened Lifecycle

  /** How many steps of the stop list have run to their end. */
  function Progress(p: Plan, c: Close): nat {
    match c
    case NotStarted => 0
    case Running(next) => next
    case Resolved => |p.steps|
    case Rejected(at) => at
  }

  /** What the close has already stopped. */
  ghost predicate StoppedSoFar(p: Plan, jobs: Jobs, progress: nat)
    requires progress <= |p.steps|
  {
    forall j :: StopJob(j) in p.steps[..progress] ==> j !in jobs.armed && j in jobs.stopped
  }

  /** How far the list has been entered: a step that threw may have had its effect. */
  function Reach(p: Plan, c: Close): nat {
    if c.Rejected? then c.at + 1 else Progress(p, c)
  }

  /** Nothing else has been stopped. */
  ghost predicate StoppedOnly(p: Plan, jobs: Jobs, reach: nat)
    requires reach <= |p.steps|
  {
    forall j :: j in jobs.stopped ==> StopJob(j) in p.steps[..reach]
  }

  /** The close waits for the server's connections. */
  predicate Draining(p: Plan, c: Close) {
    AtStep(p, c) && Waits(p.steps[c.next])
  }

  ghost predicate CloseInv(p: Plan, s: State) {
    && WellOrdered(p)
    && (s.close.Running? || s.close.Rejected? ==> Progress(p, s.close) < |p.steps|)
    && StoppedSoFar(p, s.jobs, Progress(p, s.close))
    && StoppedOnly(p, s.jobs, Reach(p, s.close))
    && (!s.jobs.dbOpen ==> Settled(s.close) && Progress(p, s.close) >= |p.steps| - 1)
    && (s.close.Resolved? ==> !s.jobs.dbOpen)
    && s.closeCalls == (if s.close.NotStarted? then 0 else 1)
    && (s.control.fatalAt.Some? && !s.control.joined ==> s.close.NotStarted? || Draining(p, s.close))
  }

  /** Every claimed row is stamped, or was answered badly, or is the one being waited for. */
  predicate RefundInv(s: Jobs) {
    var r, waiting := s.refunds, s.inFlight[ServiceRefunds];
    && r.claimed == r.stamped + r.failed + waiting && waiting <= 1
    && r.asked <= SERVICE_SWEEP_MAX_PER_TICK && (waiting == 1 ==> r.asked >= 1)
    && (r.lateClaims > 0 ==> r.lateClaims < r.asked && ServiceRefunds in s.stopped)
  }

  ghost predicate JobsInv(p: Plan, s: Jobs) {
    && s.armed == p.armedAtBoot - s.stopped
    && (forall j :: j in s.inFlight ==> j in p.armedAtBoot && Asynchronous(j))
    && s.deadWork == []
    && (forall j :: j in s.lateWork ==> j == ServiceRefunds)
    && RefundInv(s)
  }

  /** Why a process that has exited has exited with this code. */
  function CodeOf(c: Control, close: Close): int {
    if c.parentFired then 0
    else if close.Resolved? then (if c.signalled then 0 else FATAL_EXIT_CODE)
    else if close.Rejected? then 1
    else if c.crashed then HANDLER_THREW_EXIT_CODE
    else FATAL_EXIT_CODE
  }

  ghost predicate ExitInv(c: Control, close: Close) {
    && (c.signalled || c.joined <==> !close.NotStarted?)
    && (c.joined ==> c.fatalAt.Some?)
    && (c.fatalAt.Some? ==> c.fatalInProgress && c.fatalAt.value <= c.now)
    && (c.parentFired || c.crashed ==> c.exit.Some? && !Settled(close))
    && !(c.parentFired && c.crashed)
    && (c.exit.Some? ==> c.exit == Some(CodeOf(c, close)))
    && (c.exit.Some? ==> c.parentFired || c.crashed || Settled(close) || HardTimerDue(c))
  }

  ghost predicate Inv(p: Plan, s: State) {
    CloseInv(p, s) && JobsInv(p, s.jobs) && ExitInv(s.control, s.close)
  }

  lemma TickKeepsJobs(p: Plan, s: Jobs, j: Job, asks: Option<nat>)
    requires JobsInv(p, s) && j in s.armed && s.dbOpen
    ensures var s' := StartTick(s, j, asks);
            JobsInv(p, s') && s'.armed == s.armed && s'.stopped == s.stopped && s'.dbOpen
  {
  }

  lemma AnswerKeepsRefunds(s: Jobs, ok: bool, more: Option<nat>)
    requires RefundInv(s) && ServiceRefunds in s.inFlight
    ensures RefundInv(AnswerRefund(s, ok, more))
  {
    assert s.inFlight[ServiceRefunds] == 1;
    assert (s.inFlight - multiset{ServiceRefunds})[ServiceRefunds] == 0;
  }

  lemma ResumeKeepsJobs(p: Plan, s: Jobs, j: Job, ok: bool, more: Option<nat>)
    requires JobsInv(p, s) && j in s.inFlight && s.dbOpen
    ensures var s' := ResumeTick(s, j, ok, more);
            JobsInv(p, s') && s'.armed == s.armed && s'.stopped == s.stopped && s'.dbOpen
  {
    if j == ServiceRefunds {
      AnswerKeepsRefunds(s, ok, more);
    }
  }

  lemma EffectKeepsJobs(p: Plan, s: Jobs, step: Step)
    requires JobsInv(p, s)
    ensures JobsInv(p, StepEffect(s, step))
  {
  }

  /** The next step of the list, run to its end or thrown half way. */
  lemma ProgressKeepsStopped(p: Plan, s: Jobs, n: nat)
    requires WellOrdered(p) && n < |p.steps| && StoppedSoFar(p, s, n)
    ensures StoppedSoFar(p, StepEffect(s, p.steps[n]), n + 1) && StoppedSoFar(p, StepEffect(s, p.steps[n]), n)
    ensures StoppedOnly(p, s, n) ==> StoppedOnly(p, StepEffect(s, p.steps[n]), n + 1) && StoppedOnly(p, s, n + 1)
    ensures !StepEffect(s, p.steps[n]).dbOpen && s.dbOpen ==> n == |p.steps| - 1
  {
    assert p.steps[..n + 1] == p.steps[..n] + [p.steps[n]];
    assert n < |p.steps| - 1 ==> p.steps[n] == Front(p.steps)[n];
  }

  /** A callback finds the database open: once it is closed only promise jobs are left. */
  lemma CallbackFindsDbOpen(p: Plan, s: State, e: Event)
    requires CloseInv(p, s) && ExitInv(s.control, s.close) && Enabled(p, s, e)
    requires !e.CloseTellsSignal? && !e.CloseTellsFatal? && !e.FatalJoinsClose?
    ensures s.jobs.dbOpen && !Settled(s.close)
  {
  }

  lemma ListenerKeepsExit(c: Control, close: Close, kind: Kind, reason: Reason, at: int)
    requires ExitInv(c, close) && c.exit.None? && !Settled(close)
    ensures ExitInv(if kind == Exception then OnException(c, reason, at) else OnRejection(c, reason, at), close)
  {
  }

  /** A tick or an answer: only the jobs change. */
  lemma WorkKeepsInv(p: Plan, s: State, e: Event)
    requires Inv(p, s) && Enabled(p, s, e) && (e.Tick? || e.Resume?)
    ensures Inv(p, Next(p, s, e))
  {
    CallbackFindsDbOpen(p, s, e);
    if e.Tick? {
      TickKeepsJobs(p, s.jobs, e.job, e.asks);
    } else {
      ResumeKeepsJobs(p, s.jobs, e.job, e.ok, e.more);
    }
  }

  /** The close takes a step, or fails at one. */
  lemma CloseKeepsInv(p: Plan, s: State, e: Event)
    requires Inv(p, s) && Enabled(p, s, e) && (e.StepDone? || e.StepThrows?)
    ensures Inv(p, Next(p, s, e))
  {
    CallbackFindsDbOpen(p, s, e);
    EffectKeepsJobs(p, s.jobs, p.steps[s.close.next]);
    ProgressKeepsStopped(p, s.jobs, s.close.next);
  }

  /** Everything else: only the process's end comes nearer. */
  lemma EndingKeepsInv(p: Plan, s: State, e: Event)
    requires Inv(p, s) && Enabled(p, s, e) && !e.Tick? && !e.Resume? && !e.StepDone? && !e.StepThrows?
    ensures Next(p, s, e).jobs == s.jobs && ExitInv(Next(p, s, e).control, Next(p, s, e).close)
    ensures CloseInv(p, Next(p, s, e))
  {
    match e {
      case Fatal(kind, reason, at) =>
        CallbackFindsDbOpen(p, s, e);
        ListenerKeepsExit(s.control, s.close, kind, reason, at);
      case CloseTellsSignal =>
      case CloseTellsFatal =>
      case FatalJoinsClose =>
      case _ =>
        CallbackFindsDbOpen(p, s, e);
    }
  }

  lemma StepKeepsInv(p: Plan, s: State, e: Event)
    requires Inv(p, s) && Enabled(p, s, e)
    ensures Inv(p, Next(p, s, e))
  {
    if e.Tick? || e.Resume? {
      WorkKeepsInv(p, s, e);
    } else if e.StepDone? || e.StepThrows? {
      CloseKeepsInv(p, s, e);
    } else {
      EndingKeepsInv(p, s, e);
    }
  }

  lemma {:induction false} RunKeepsInv(p: Plan, s: State, es: seq<Event>)
    requires Inv(p, s) && Legal(p, s, es)
    ensures Inv(p, Run(p, s, es))
    decreases es
  {
    if es != [] {
      StepKeepsInv(p, s, es[0]);
      RunKeepsInv(p, Next(p, s, es[0]), es[1..]);
    }
  }

  lemma InitInv(p: Plan)
    requires WellOrdered(p)
    ensures Inv(p, Init(p))
  {
  }

  lemma ReachableInv(p: Plan, s: State)
    requires WellOrdered(p) && Reachable(p, s)
    ensures Inv(p, s)
  {
    var es :| Legal(p, Init(p), es) && Run(p, Init(p), es) == s;
    InitInv(p);
    RunKeepsInv(p, Init(p), es);
  }

  lemma {:induction false} RunSnoc(p: Plan, s: State, es: seq<Event>, e: Event)
    ensures Run(p, s, es + [e]) == Next(p, Run(p, s, es), e)
    ensures Legal(p, s, es + [e]) <==> Legal(p, s, es) && Enabled(p, Run(p, s, es), e)
    decreases es
  {
    RunAppend(p, s, es, [e]);
    LegalAppend(p, s, es, [e]);
    RunUnfolds(p, Run(p, s, es), [e]);
    assert [e][1..] == [];
  }

  lemma RunUnfolds(p: Plan, s: State, es: seq<Event>)
    requires es != []
    ensures Run(p, s, es) == Run(p, Next(p, s, es[0]), es[1..])
    ensures Legal(p, s, es) <==> Enabled(p, s, es[0]) && Legal(p, Next(p, s, es[0]), es[1..])
  {
  }

  lemma {:induction false} RunAppend(p: Plan, s: State, es: seq<Event>, more: seq<Event>)
    ensures Run(p, s, es + more) == Run(p, Run(p, s, es), more)
    decreases es
  {
    if es == [] {
      assert es + more == more;
    } else {
      var s', all := Next(p, s, es[0]), es + more;
      RunAppend(p, s', es[1..], more);
      assert all[1..] == es[1..] + more && all[0] == es[0];
      RunUnfolds(p, s, es);
      RunUnfolds(p, s, all);
    }
  }

  lemma {:induction false} LegalAppend(p: Plan, s: State, es: seq<Event>, more: seq<Event>)
    ensures Legal(p, s, es + more) <==> Legal(p, s, es) && Legal(p, Run(p, s, es), more)
    decreases es
  {
    if es == [] {
      assert es + more == more;
    } else {
      var s', all := Next(p, s, es[0]), es + more;
      LegalAppend(p, s', es[1..], more);
      assert all[1..] == es[1..] + more && all[0] == es[0];
      RunUnfolds(p, s, es);
      RunUnfolds(p, s, all);
    }
  }

  lemma RunOfTwo(p: Plan, s: State, a: Event, b: Event)
    ensures Run(p, s, [a, b]) == Next(p, Next(p, s, a), b)
    ensures Legal(p, s, [a, b]) <==> Enabled(p, s, a) && Enabled(p, Next(p, s, a), b)
  {
    RunUnfolds(p, s, [a, b]);
    RunUnfolds(p, Next(p, s, a), [b]);
    assert [a, b][1..] == [b] && [b][1..] == [];
  }

  // ----- the database and the background jobs -----

  lemma OnceClosedItEnds(p: Plan, s: State, e: Event)
    requires CloseInv(p, s) && ExitInv(s.control, s.close) && !s.jobs.dbOpen && s.control.exit.None?
    ensures Enabled(p, s, CloseTellsSignal) || Enabled(p, s, CloseTellsFatal)
    ensures Enabled(p, s, e) ==> e.CloseTellsSignal? || e.CloseTellsFatal?
  {
  }

  /** In every interleaving and every deployment no database work of a background job, in a tick or after
      an await, finds the database closed: once it is, only the readers that end the process are left, and
      what an earlier tick waits for is not delivered before that. A close that resolved has closed the
      database, one whose step threw earlier has not. */
  lemma NoDeadWork(d: Deployment, s: State, e: Event)
    requires Reachable(PlanOf(d), s)
    ensures s.jobs.deadWork == []
    ensures !s.jobs.dbOpen && Enabled(PlanOf(d), s, e) ==> e.CloseTellsSignal? || e.CloseTellsFatal?
    ensures s.close.Resolved? ==> !s.jobs.dbOpen
    ensures s.close.Rejected? && s.close.at < |PlanOf(d).steps| - 1 ==> s.jobs.dbOpen
  {
    var p := PlanOf(d);
    EveryDeploymentIsWellOrdered(d);
    ReachableInv(p, s);
    if !s.jobs.dbOpen && s.control.exit.None? {
      OnceClosedItEnds(p, s, e);
    }
  }

  /** From its own stop on, no job but the refund sweep does database work, waiting ones included; and no
      tick of a stopped job starts. */
  lemma OnlyRefundsWorkLate(p: Plan, s: State, j: Job, asks: Option<nat>)
    requires WellOrdered(p) && Reachable(p, s)
    ensures forall i :: i in s.jobs.lateWork ==> i == ServiceRefunds
    ensures j in s.jobs.stopped ==> !Enabled(p, s, Tick(j, asks))
  {
    ReachableInv(p, s);
  }

  /** A replica never ticks a sweep, whatever happens to it. */
  lemma ReplicaNeverSweeps(d: Deployment, s: State, j: Job, asks: Option<nat>)
    requires d.wiring.nodeRole == Replica && Reachable(PlanOf(d), s) && j != OutboxDrain && j != ReplicaPull
    ensures !Enabled(PlanOf(d), s, Tick(j, asks))
  {
    var p := PlanOf(d);
    ReplicaArmsNoSweep(d);
    EveryDeploymentIsWellOrdered(d);
    ReachableInv(p, s);
    assert s.jobs.armed <= p.armedAtBoot;
  }

  lemma ReplicaArmsNoSweep(d: Deployment)
    requires d.wiring.nodeRole == Replica
    ensures PlanOf(d).armedAtBoot <= {OutboxDrain, ReplicaPull}
  {
    assert ArmedBy(d.wiring) == {};
  }

  // ----- refunds around the stop -----

  /** In every reachable state each claimed row is stamped, was answered badly, or is the one the sweep
      waits for; so a refund still awaited when the process exits leaves a claimed row without its stamp.
      After the sweep's stop it claims fewer rows than one tick may. */
  lemma ClaimsAreAccountedFor(p: Plan, s: State)
    requires WellOrdered(p) && Reachable(p, s)
    ensures var r, waiting := s.jobs.refunds, s.jobs.inFlight[ServiceRefunds];
            && r.claimed == r.stamped + r.failed + waiting && waiting <= 1
            && r.lateClaims < 20
            && (r.lateClaims > 0 ==> ServiceRefunds in s.jobs.stopped)
  {
    ReachableInv(p, s);
  }

  /** The sweep is stopped, and no tick of it waits for an answer that could make it claim another row. */
  predicate DoneClaiming(s: Jobs) {
    ServiceRefunds !in s.armed && !MayClaim(s)
  }

  predicate MayClaim(s: Jobs) {
    ServiceRefunds in s.inFlight && s.refunds.asked < SERVICE_SWEEP_MAX_PER_TICK
  }

  lemma DoneStaysDone(p: Plan, s: State, e: Event)
    requires DoneClaiming(s.jobs) && Enabled(p, s, e)
    ensures DoneClaiming(Next(p, s, e).jobs)
    ensures Next(p, s, e).jobs.refunds.claimed == s.jobs.refunds.claimed
  {
    match e
    case StepDone =>
      assert Next(p, s, e).jobs == StepEffect(s.jobs, p.steps[s.close.next]);
    case StepThrows(applied) =>
    case Tick(j, _) =>
      assert j != ServiceRefunds;
    case Resume(j, _, _) =>
    case FatalJoinsClose =>
    case Signal =>
    case _ =>
  }

  lemma {:induction false} NoMoreClaims(p: Plan, s: State, es: seq<Event>)
    requires DoneClaiming(s.jobs) && Legal(p, s, es)
    ensures Run(p, s, es).jobs.refunds.claimed == s.jobs.refunds.claimed
    decreases es
  {
    if es != [] {
      DoneStaysDone(p, s, es[0]);
      NoMoreClaims(p, Next(p, s, es[0]), es[1..]);
    }
  }

  /** From a step of the close to the HTTP drain, everything in between going well. */
  lemma {:induction false} ReachDrain(p: Plan, s: State) returns (es: seq<Event>)
    requires WellOrdered(p) && s.control.exit.None? && (s.control.fatalAt.None? || s.control.joined)
    requires s.close.Running? && s.close.next <= |p.steps| - 2
    ensures Legal(p, s, es) && forall e :: e in es ==> e == StepDone
    ensures var r := Run(p, s, es);
            && r.close == Running(|p.steps| - 2) && r.control == s.control && SameWork(r.jobs, s.jobs)
            && r.jobs.dbOpen == s.jobs.dbOpen && s.jobs.stopped <= r.jobs.stopped
    decreases |p.steps| - s.close.next
  {
    if s.close.next == |p.steps| - 2 {
      es := [];
    } else {
      StepBeforeDrain(p, s.close.next);
      var s' := Next(p, s, StepDone);
      var rest := ReachDrain(p, s');
      es := [StepDone] + rest;
      assert es[1..] == rest && es[0] == StepDone;
      RunUnfolds(p, s, es);
    }
  }

  lemma StepBeforeDrain(p: Plan, k: nat)
    requires WellOrdered(p) && k < |p.steps| - 2
    ensures !Waits(p.steps[k]) && p.steps[k] != CloseDb
    ensures p.steps[|p.steps| - 2] == DrainHttp && p.steps[|p.steps| - 1] == CloseDb
  {
    assert Front(p.steps)[k] == p.steps[k] && Front(Front(p.steps))[k] == p.steps[k];
  }

  /** The two running steps that end every well-ordered plan. */
  lemma LastSteps(p: Plan)
    requires WellOrdered(p)
    ensures p.steps[|p.steps| - 2] == DrainHttp && p.steps[|p.steps| - 1] == CloseDb
  {
    assert Front(p.steps)[|p.steps| - 2] == p.steps[|p.steps| - 2];
  }

  predicate SameWork(r: Jobs, s: Jobs) {
    r.inFlight == s.inFlight && r.refunds == s.refunds
  }

  /** During the drain the provider's answer arrives, and another row is due. */
  lemma ClaimDuringDrain(p: Plan, s: State)
    requires WellOrdered(p) && s.control.exit.None? && (s.control.fatalAt.None? || s.control.joined)
    requires s.close == Running(|p.steps| - 2) && MayClaim(s.jobs)
    ensures var e := Resume(ServiceRefunds, true, Some(0));
            && Enabled(p, s, e) && Next(p, s, e).jobs.refunds.claimed == s.jobs.refunds.claimed + 1
            && (ServiceRefunds in s.jobs.stopped ==>
                  Next(p, s, e).jobs.refunds.lateClaims == s.jobs.refunds.lateClaims + 1)
  {
    LastSteps(p);
  }

  lemma ClaimAfterStop(p: Plan, s: State) returns (es: seq<Event>)
    requires WellOrdered(p) && s.control.exit.None? && (s.control.fatalAt.None? || s.control.joined)
    requires s.close.Running? && s.close.next < |p.steps| - 2 && p.steps[s.close.next] == StopJob(ServiceRefunds)
    requires MayClaim(s.jobs)
    ensures Legal(p, s, [StepDone] + es)
    ensures Run(p, s, [StepDone] + es).jobs.refunds.claimed > s.jobs.refunds.claimed
  {
    var s' := Next(p, s, StepDone);
    var rest := ReachDrain(p, s');
    var r, answer := Run(p, s', rest), Resume(ServiceRefunds, true, Some(0));
    ClaimDuringDrain(p, r);
    RunSnoc(p, s', rest, answer);
    es := rest + [answer];
    RunUnfolds(p, s, [StepDone] + es);
    assert ([StepDone] + es)[1..] == es && ([StepDone] + es)[0] == StepDone;
  }

  /** The stop of the refund sweep takes effect: some continuation claims another row and asks the
      provider for its refund iff a tick is waiting at that moment and its cap is not reached. The stop
      does not reach a tick that is already under way. */
  lemma LateClaimIff(p: Plan, s: State)
    requires WellOrdered(p) && Reachable(p, s) && s.control.exit.None?
    requires AtStep(p, s.close) && p.steps[s.close.next] == StopJob(ServiceRefunds)
    ensures (exists es :: Legal(p, s, [StepDone] + es) && Run(p, s, [StepDone] + es).jobs.refunds.claimed > s.jobs.refunds.claimed)
            <==> MayClaim(s.jobs)
  {
    ReachableInv(p, s);
    LastSteps(p);
    if MayClaim(s.jobs) {
      var es := ClaimAfterStop(p, s);
    } else {
      var s' := Next(p, s, StepDone);
      forall es | Legal(p, s, [StepDone] + es)
        ensures Run(p, s, [StepDone] + es).jobs.refunds.claimed == s.jobs.refunds.claimed
      {
        RunUnfolds(p, s, [StepDone] + es);
        assert ([StepDone] + es)[1..] == es && ([StepDone] + es)[0] == StepDone;
        NoMoreClaims(p, s', es);
      }
    }
  }

  // ----- closing and exiting -----

  /** The signal path, the fatal path and every repetition of either share one close. */
  lemma CloseIsCalledAtMostOnce(p: Plan, s: State)
    requires WellOrdered(p) && Reachable(p, s)
    ensures s.closeCalls <= 1
    ensures s.control.signalled || s.control.joined <==> s.closeCalls == 1
  {
    ReachableInv(p, s);
  }

  /** The exit code is decided by how the process ended: the parent gone, 0; a settled close, 0 iff it
      resolved and a signal was taken, else 1; a fatal handler that threw, 7; else the hard timer, 1. Only
      a resolved close leaves the database closed, unless db.close itself threw after closing it. */
  lemma ExitCodeIs(p: Plan, s: State)
    requires WellOrdered(p) && Reachable(p, s) && s.control.exit.Some?
    ensures s.control.exit == Some(CodeOf(s.control, s.close))
    ensures !s.control.parentFired && !s.control.crashed && !Settled(s.close) ==> HardTimerDue(s.control)
    ensures !s.jobs.dbOpen ==> s.close.Resolved? || s.close == Rejected(|p.steps| - 1)
  {
    ReachableInv(p, s);
  }

  lemma ControlComesFromEvent(p: Plan, s: State, e: Event)
    ensures var c, c' := s.control, Next(p, s, e).control;
            && (c'.signalled ==> c.signalled || e.Signal?)
            && (c'.parentFired ==> c.parentFired || e.ParentPipeEnds?)
            && (c'.fatalInProgress ==> c.fatalInProgress || e.Fatal?)
            && (c'.crashed ==> c.crashed || e.Fatal?)
  {
    match e
    case Fatal(kind, reason, at) =>
      FatalKeepsFlags(s.control, kind, reason, at);
    case _ =>
  }

  lemma FatalKeepsFlags(c: Control, kind: Kind, reason: Reason, at: int)
    ensures var c' := if kind == Exception then OnException(c, reason, at) else OnRejection(c, reason, at);
            c'.signalled == c.signalled && c'.parentFired == c.parentFired
  {
  }

  predicate Has(es: seq<Event>, which: Event -> bool) {
    exists k :: 0 <= k < |es| && which(es[k])
  }

  lemma {:induction false} FlagsComeFromEvents(p: Plan, s: State, es: seq<Event>)
    ensures var r := Run(p, s, es).control;
            && (r.signalled ==> s.control.signalled || Signal in es)
            && (r.parentFired ==> s.control.parentFired || ParentPipeEnds in es)
            && (r.fatalInProgress ==> s.control.fatalInProgress || Has(es, (e: Event) => e.Fatal?))
            && (r.crashed ==> s.control.crashed || Has(es, (e: Event) => e.Fatal?))
    decreases es
  {
    if es != [] {
      ControlComesFromEvent(p, s, es[0]);
      FlagsComeFromEvents(p, Next(p, s, es[0]), es[1..]);
      var fatal := (e: Event) => e.Fatal?;
      if Has(es[1..], fatal) {
        var k :| 0 <= k < |es[1..]| && fatal(es[1..][k]);
        assert fatal(es[k + 1]);
      }
    }
  }

  /** Fatals alone, of whatever kind and reason: the process can only end with a non-zero code. */
  lemma FatalOnlyExitsNonZero(p: Plan, es: seq<Event>)
    requires WellOrdered(p) && Legal(p, Init(p), es) && Signal !in es && ParentPipeEnds !in es
    ensures Run(p, Init(p), es).control.exit in {None, Some(1), Some(7)}
  {
    ReachableInv(p, Run(p, Init(p), es));
    FlagsComeFromEvents(p, Init(p), es);
  }

  /** Signals alone: 0 iff the close resolved, 1 iff it rejected. */
  lemma SignalOnlyReportsTheClose(p: Plan, es: seq<Event>)
    requires WellOrdered(p) && Legal(p, Init(p), es) && ParentPipeEnds !in es && !Has(es, (e: Event) => e.Fatal?)
    ensures var s := Run(p, Init(p), es);
            s.control.exit.Some? ==>
              && (s.control.exit == Some(0) <==> s.close.Resolved?)
              && (s.control.exit == Some(1) <==> s.close.Rejected?)
  {
    ReachableInv(p, Run(p, Init(p), es));
    FlagsComeFromEvents(p, Init(p), es);
  }

  /** A rejected close stays rejected. */
  lemma {:induction false} RejectionIsFinal(p: Plan, s: State, es: seq<Event>)
    requires s.close.Rejected? && Legal(p, s, es)
    ensures Run(p, s, es).close == s.close
    decreases es
  {
    if es != [] {
      RejectionIsFinal(p, Next(p, s, es[0]), es[1..]);
    }
  }

  /** From the drain to a close that has resolved. */
  lemma FinishClose(p: Plan, s: State)
    requires WellOrdered(p) && s.control.exit.None? && (s.control.fatalAt.None? || s.control.joined)
    requires s.close == Running(|p.steps| - 2)
    ensures var r := Run(p, s, [StepDone, StepDone]);
            Legal(p, s, [StepDone, StepDone]) && r.close.Resolved? && r.control == s.control && SameWork(r.jobs, s.jobs)
  {
    LastSteps(p);
    RunOfTwo(p, s, StepDone, StepDone);
  }

  lemma CloseCanResolve(p: Plan, s: State) returns (es: seq<Event>)
    requires WellOrdered(p) && s.control.exit.None? && (s.control.fatalAt.None? || s.control.joined)
    requires AtStep(p, s.close)
    ensures Legal(p, s, es) && forall e :: e in es ==> e == StepDone
    ensures var r := Run(p, s, es); r.close.Resolved? && r.control == s.control && SameWork(r.jobs, s.jobs)
  {
    if s.close.next == |p.steps| - 1 {
      LastSteps(p);
      es := [StepDone];
      RunUnfolds(p, s, es);
      assert [StepDone][1..] == [];
    } else {
      var before := ReachDrain(p, s);
      FinishClose(p, Run(p, s, before));
      RunAppend(p, s, before, [StepDone, StepDone]);
      LegalAppend(p, s, before, [StepDone, StepDone]);
      es := before + [StepDone, StepDone];
    }
  }

  predicate EndsWithZero(p: Plan, s: State, es: seq<Event>) {
    Legal(p, s, es) && Signal !in es && ParentPipeEnds !in es && Run(p, s, es).control.exit == Some(0)
  }

  lemma SignalCanWin(p: Plan, s: State) returns (es: seq<Event>)
    requires Inv(p, s) && s.control.exit.None? && s.control.joined && s.control.signalled && !s.close.Rejected?
    ensures EndsWithZero(p, s, es)
  {
    es := [];
    if s.close.Running? {
      es := CloseCanResolve(p, s);
    }
    RunSnoc(p, s, es, CloseTellsSignal);
    es := es + [CloseTellsSignal];
  }

  /** The promise that a fatal ends non-zero does not survive a signal. From a state where a fatal has
      armed the timer, the process can still exit 0 (with no further signal and no pipe event) iff a signal
      was already taken and the close has not failed; and if the close then does resolve, it will
      (ExitCodeIs). */
  lemma FatalCodeLostIff(p: Plan, s: State)
    requires WellOrdered(p) && Reachable(p, s) && s.control.fatalAt.Some? && s.control.exit.None?
    ensures (exists es :: EndsWithZero(p, s, es)) <==> s.control.signalled && !s.close.Rejected?
  {
    ReachableInv(p, s);
    if s.control.signalled && !s.close.Rejected? {
      if s.control.joined {
        var es := SignalCanWin(p, s);
      } else {
        var s' := Next(p, s, FatalJoinsClose);
        StepKeepsInv(p, s, FatalJoinsClose);
        var es := SignalCanWin(p, s');
        RunUnfolds(p, s, [FatalJoinsClose] + es);
        assert ([FatalJoinsClose] + es)[1..] == es && ([FatalJoinsClose] + es)[0] == FatalJoinsClose;
        assert EndsWithZero(p, s, [FatalJoinsClose] + es);
      }
    } else {
      forall es | Legal(p, s, es) && Signal !in es && ParentPipeEnds !in es
        ensures Run(p, s, es).control.exit != Some(0)
      {
        RunKeepsInv(p, s, es);
        FlagsComeFromEvents(p, s, es);
        if s.close.Rejected? {
          RejectionIsFinal(p, s, es);
        }
      }
    }
  }

  /** However a close was begun, it can reach its drain. */
  lemma DrainFrom(p: Plan, es: seq<Event>) returns (all: seq<Event>)
    requires WellOrdered(p) && Legal(p, Init(p), es)
    requires var s := Run(p, Init(p), es);
             s.close == Running(0) && s.control.exit.None? && (s.control.fatalAt.None? || s.control.joined)
    ensures es <= all && Legal(p, Init(p), all)
    ensures var s, r := Run(p, Init(p), es), Run(p, Init(p), all);
            && r.close == Running(|p.steps| - 2) && r.control == s.control && SameWork(r.jobs, s.jobs)
            && forall j :: j in p.armedAtBoot ==> j in r.jobs.stopped
  {
    var rest := ReachDrain(p, Run(p, Init(p), es));
    RunAppend(p, Init(p), es, rest);
    LegalAppend(p, Init(p), es, rest);
    all := es + rest;
    InitInv(p);
    RunKeepsInv(p, Init(p), all);
    DrainMeansStopped(p, Run(p, Init(p), all));
  }

  lemma DrainMeansStopped(p: Plan, s: State)
    requires CloseInv(p, s) && s.close == Running(|p.steps| - 2)
    ensures forall j :: j in p.armedAtBoot ==> j in s.jobs.stopped
  {
    LastSteps(p);
    forall j | j in p.armedAtBoot ensures j in s.jobs.stopped {
      assert StopJob(j) in Front(p.steps);
      assert Front(p.steps) == p.steps[..|p.steps| - 2] + [DrainHttp];
    }
  }

  /** From the drain: one more callback, the rest of the close, and the signal's reader. */
  lemma EndFrom(p: Plan, es: seq<Event>, e: Event) returns (all: seq<Event>)
    requires WellOrdered(p) && Legal(p, Init(p), es)
    requires Run(p, Init(p), es).close == Running(|p.steps| - 2) && Enabled(p, Run(p, Init(p), es), e)
    requires var s := Next(p, Run(p, Init(p), es), e);
             && s.close == Running(|p.steps| - 2) && s.control.exit.None? && s.control.signalled
             && (s.control.fatalAt.None? || s.control.joined)
    ensures Legal(p, Init(p), all) && all == es + [e] + ENDING
    ensures var s, r := Next(p, Run(p, Init(p), es), e), Run(p, Init(p), all);
            && r.close.Resolved? && r.control == s.control.(exit := Some(0)) && SameWork(r.jobs, s.jobs)
  {
    var s := Next(p, Run(p, Init(p), es), e);
    RunSnoc(p, Init(p), es, e);
    CloseThenExit(p, s);
    RunAppend(p, Init(p), es + [e], ENDING);
    LegalAppend(p, Init(p), es + [e], ENDING);
    all := es + [e] + ENDING;
  }

  const ENDING: seq<Event> := [StepDone, StepDone, CloseTellsSignal]

  lemma CloseThenExit(p: Plan, s: State)
    requires WellOrdered(p) && s.control.exit.None? && s.control.signalled && (s.control.fatalAt.None? || s.control.joined)
    requires s.close == Running(|p.steps| - 2)
    ensures var r := Run(p, s, ENDING);
            && Legal(p, s, ENDING) && r.close.Resolved? && r.control == s.control.(exit := Some(0)) && SameWork(r.jobs, s.jobs)
  {
    FinishClose(p, s);
    RunSnoc(p, s, [StepDone, StepDone], CloseTellsSignal);
    assert [StepDone, StepDone] + [CloseTellsSignal] == ENDING;
  }

  lemma SignalMasksFatalIn(p: Plan) returns (es: seq<Event>)
    requires WellOrdered(p)
    ensures |es| > 2 && es[..2] == [Fatal(Exception, PLAIN, 0), FatalJoinsClose] && Legal(p, Init(p), es)
    ensures var c := Run(p, Init(p), es).control; c.joined && !c.parentFired && c.exit == Some(0)
  {
    var fatal := Fatal(Exception, PLAIN, 0);
    RunOfTwo(p, Init(p), fatal, FatalJoinsClose);
    var before := DrainFrom(p, [fatal, FatalJoinsClose]);
    LastSteps(p);
    es := EndFrom(p, before, Signal);
    assert es[..2] == before[..2];
  }

  lemma RefundsGoOnIn(p: Plan) returns (es: seq<Event>)
    requires WellOrdered(p) && ServiceRefunds in p.armedAtBoot
    ensures Legal(p, Init(p), es) && Run(p, Init(p), es).control.exit == Some(0)
    ensures var r := Run(p, Init(p), es).jobs.refunds; r.lateClaims == 1 && r.claimed == 2 && r.stamped == 1 && r.failed == 0
  {
    var tick, answer := Tick(ServiceRefunds, Some(0)), Resume(ServiceRefunds, true, Some(0));
    RunOfTwo(p, Init(p), tick, Signal);
    var before := DrainFrom(p, [tick, Signal]);
    ClaimDuringDrain(p, Run(p, Init(p), before));
    es := EndFrom(p, before, answer);
  }

  /** That loss is real in every deployment: a fatal, a signal during the drain, and a close that goes
      well exit 0. */
  lemma SignalMasksFatal(d: Deployment) returns (es: seq<Event>)
    ensures |es| > 2 && es[..2] == [Fatal(Exception, PLAIN, 0), FatalJoinsClose] && Legal(PlanOf(d), Init(PlanOf(d)), es)
    ensures var c := Run(PlanOf(d), Init(PlanOf(d)), es).control; c.joined && !c.parentFired && c.exit == Some(0)
  {
    EveryDeploymentIsWellOrdered(d);
    es := SignalMasksFatalIn(PlanOf(d));
  }

  /** And so is a refund asked for after the sweep's stop, wherever its timer is armed: the answer to the
      first row arrives during the drain, the next row is claimed, and the process exits 0 with that row
      claimed and without its provider's stamp. */
  lemma RefundsGoOnAfterStop(d: Deployment) returns (es: seq<Event>)
    requires d.wiring.nodeRole != Replica && d.wiring.canRefund && d.wiring.autoRefund
    ensures Legal(PlanOf(d), Init(PlanOf(d)), es) && Run(PlanOf(d), Init(PlanOf(d)), es).control.exit == Some(0)
    ensures var r := Run(PlanOf(d), Init(PlanOf(d)), es).jobs.refunds;
            r.lateClaims == 1 && r.claimed == r.stamped + r.failed + 1
  {
    EveryDeploymentIsWellOrdered(d);
    assert ServiceRefunds in ArmedBy(d.wiring);
    es := RefundsGoOnIn(PlanOf(d));
  }

  /** The hard timer never cuts a close short: a fatal process that is gone before its ten seconds are
      over was ended by a close that had settled, by the parent, or by a handler that threw. */
  lemma CloseGetsItsBudget(p: Plan, s: State)
    requires WellOrdered(p) && Reachable(p, s) && s.control.fatalAt.Some? && s.control.exit.Some?
    requires s.control.now < s.control.fatalAt.value + 10_000
    ensures Settled(s.close) || s.control.parentFired || s.control.crashed
  {
    ReachableInv(p, s);
  }

  /** At most one close; no database work after the database closed and none but refunds' after a job's
      stop; every claimed row accounted for; and an exit with the code its cause calls for. */
  ghost predicate Safe(s: State) {
    && s.closeCalls <= 1 && s.jobs.deadWork == [] && (!s.jobs.dbOpen ==> Settled(s.close))
    && (forall j :: j in s.jobs.lateWork ==> j == ServiceRefunds)
    && s.jobs.refunds.claimed == s.jobs.refunds.stamped + s.jobs.refunds.failed + s.jobs.inFlight[ServiceRefunds]
    && (s.control.exit.Some? ==> s.control.exit == Some(CodeOf(s.control, s.close)))
  }
}
