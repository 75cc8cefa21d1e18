/** One server process from the end of boot to its exit: background ticks, one memoized close running
    the stop list step by step, signals, fatals with their hard timer, and the desktop's lifetime pipe.
    Callbacks come in any order, but each runs to completion: promise jobs it leaves behind are done
    before the next callback. */
module Lifecycle {
  import opened Prelude
  import opened Reasons
  import opened RateGates
  import opened Sweeps

  const FATAL_EXIT_CODE := 1
  /** Node's own, when the handler of an uncaught exception throws. */
  const HANDLER_THREW_EXIT_CODE := 7
  const FATAL_HARD_EXIT_MS := 10_000
  const FATAL_REENTRY_LOG_WINDOW_MS := 1_000
  const SERVICE_SWEEP_MAX_PER_TICK := 20

  /** What boot decided: which timers and optional parts this process has. */
  datatype Deployment = Deployment(
    wiring: Wiring,
    lanTls: bool, revocation: bool, outbox: bool, puller: bool,
    parentPipe: bool)

  function InitiallyArmed(d: Deployment): set<Job> {
    ArmedBy(d.wiring) + (if d.outbox then {OutboxDrain} else {}) + (if d.puller then {ReplicaPull} else {})
  }

  // ----- the stop list -----

  datatype Step =
    | UnwirePush | CloseLanFront | MarkShuttingDown
    | StopJob(job: Job) | StopStatusProbes | StopLatencyReader | StopRevocation
    | CloseSocket | StopAudio | DrainHttp | CloseDb

  function OnlyWith(present: bool, step: Step): seq<Step> {
    if present then [step] else []
  }

  /** The sweeps' timers, as `close` stops them. */
  function StopSweeps(w: Wiring): seq<Step> {
    [StopJob(Retention), StopJob(GrowthReaper)]
    + OnlyWith(w.hasForwardLedger, StopJob(ForwardLedgerPrune))
    + [StopJob(RecoveryPrune), StopJob(AnonCleanup), StopStatusProbes, StopLatencyReader]
    + OnlyWith(w.canRefund, StopJob(ServiceRefunds))
  }

  function StopNodeJobs(d: Deployment): seq<Step> {
    OnlyWith(d.revocation, StopRevocation)
    + OnlyWith(d.outbox, StopJob(OutboxDrain))
    + OnlyWith(d.puller, StopJob(ReplicaPull))
  }

  function CutOff(d: Deployment): seq<Step> {
    [UnwirePush] + OnlyWith(d.lanTls, CloseLanFront) + [MarkShuttingDown]
  }

  const LET_GO: seq<Step> := [CloseSocket, StopAudio, DrainHttp]

  function BeforeDb(d: Deployment): seq<Step> {
    CutOff(d) + StopSweeps(d.wiring) + StopNodeJobs(d) + LET_GO
  }

  /** Everything `close` does, in order. */
  function CloseList(d: Deployment): seq<Step> {
    BeforeDb(d) + [CloseDb]
  }

  /** The one step that can wait for something outside: a server's connections. Every other step is done
      when its function returns, and its `await` only queues a promise job. */
  predicate Waits(step: Step) {
    step == DrainHttp
  }

  /** Every timer that can be armed is stopped somewhere before the database closes, closing the database
      is the last step and happens once, and the HTTP drain comes right before it. */
  lemma CloseListStopsEveryTimer(d: Deployment)
    ensures |CloseList(d)| >= 2 && Last(CloseList(d)) == CloseDb && CloseDb !in Front(CloseList(d))
    ensures Last(Front(CloseList(d))) == DrainHttp && DrainHttp !in Front(Front(CloseList(d)))
    ensures forall j :: j in InitiallyArmed(d) ==> StopJob(j) in Front(CloseList(d))
  {
    assert Front(CloseList(d)) == BeforeDb(d);
    assert Front(BeforeDb(d)) == CutOff(d) + StopSweeps(d.wiring) + StopNodeJobs(d) + [CloseSocket, StopAudio];
    forall j | j in InitiallyArmed(d) ensures StopJob(j) in BeforeDb(d) {
      SweepsAreStopped(d.wiring, j);
      assert StopJob(j) in StopSweeps(d.wiring) || StopJob(j) in StopNodeJobs(d);
    }
  }

  lemma SweepsAreStopped(w: Wiring, j: Job)
    ensures j in ArmedBy(w) ==> StopJob(j) in StopSweeps(w)
  {
    var pair := [StopJob(Retention), StopJob(GrowthReaper)];
    var four := [StopJob(RecoveryPrune), StopJob(AnonCleanup), StopStatusProbes, StopLatencyReader];
    assert pair[0] == StopJob(Retention) && pair[1] == StopJob(GrowthReaper);
    assert four[0] == StopJob(RecoveryPrune) && four[1] == StopJob(AnonCleanup);
    assert forall step :: step in pair || step in four ==> step in StopSweeps(w);
  }

  /** The place of a step in every close: first the outside is cut off, then the relay marked, every timer
      stopped, the sockets closed, the audio they held disposed of, the server drained, the database closed.
      Steps that other deployments have keep their place. */
  function Place(step: Step): nat {
    match step
    case UnwirePush => 0 case CloseLanFront => 1 case MarkShuttingDown => 2
    case StopJob(j) => (match j
      case Retention => 3 case GrowthReaper => 4 case ForwardLedgerPrune => 5 case RecoveryPrune => 6
      case AnonCleanup => 7 case ServiceRefunds => 10 case OutboxDrain => 12 case ReplicaPull => 13)
    case StopStatusProbes => 8 case StopLatencyReader => 9 case StopRevocation => 11
    case CloseSocket => 14 case StopAudio => 15 case DrainHttp => 16 case CloseDb => 17
  }

  /** A step is in the list iff its deployment has the part it is for. */
  predicate Belongs(d: Deployment, step: Step) {
    match step
    case CloseLanFront => d.lanTls
    case StopJob(ForwardLedgerPrune) => d.wiring.hasForwardLedger
    case StopJob(ServiceRefunds) => d.wiring.canRefund
    case StopRevocation => d.revocation
    case StopJob(OutboxDrain) => d.outbox
    case StopJob(ReplicaPull) => d.puller
    case _ => true
  }

  /** In the order of their places, all of them between lo and hi. */
  ghost predicate InPlace(steps: seq<Step>, lo: nat, hi: nat) {
    && (forall i, k :: 0 <= i < k < |steps| ==> Place(steps[i]) < Place(steps[k]))
    && (forall k :: 0 <= k < |steps| ==> lo <= Place(steps[k]) < hi)
  }

  lemma Append(a: seq<Step>, b: seq<Step>, lo: nat, mid: nat, hi: nat)
    requires InPlace(a, lo, mid) && InPlace(b, mid, hi) && lo <= mid <= hi
    ensures InPlace(a + b, lo, hi)
  {
  }

  lemma Alone(present: bool, step: Step, lo: nat, hi: nat)
    requires lo <= Place(step) < hi
    ensures InPlace(OnlyWith(present, step), lo, hi) && InPlace([step], lo, hi)
  {
  }

  lemma Listed(steps: seq<Step>, lo: nat, hi: nat)
    requires forall k :: 0 <= k < |steps| ==> Place(steps[k]) == lo + k
    requires lo + |steps| == hi
    ensures InPlace(steps, lo, hi)
  {
  }

  lemma SweepStepsInPlace(w: Wiring)
    ensures InPlace(StopSweeps(w), 3, 11)
  {
    var a, b := [StopJob(Retention), StopJob(GrowthReaper)], OnlyWith(w.hasForwardLedger, StopJob(ForwardLedgerPrune));
    var c := [StopJob(RecoveryPrune), StopJob(AnonCleanup), StopStatusProbes, StopLatencyReader];
    Listed(a, 3, 5);
    Alone(w.hasForwardLedger, StopJob(ForwardLedgerPrune), 5, 6);
    Append(a, b, 3, 5, 6);
    Listed(c, 6, 10);
    Append(a + b, c, 3, 6, 10);
    Alone(w.canRefund, StopJob(ServiceRefunds), 10, 11);
    Append(a + b + c, OnlyWith(w.canRefund, StopJob(ServiceRefunds)), 3, 10, 11);
  }

  lemma NodeStepsInPlace(d: Deployment)
    ensures InPlace(StopNodeJobs(d), 11, 14)
  {
    Alone(d.revocation, StopRevocation, 11, 12);
    Alone(d.outbox, StopJob(OutboxDrain), 12, 13);
    Alone(d.puller, StopJob(ReplicaPull), 13, 14);
    ThreeInPlace(OnlyWith(d.revocation, StopRevocation), OnlyWith(d.outbox, StopJob(OutboxDrain)), OnlyWith(d.puller, StopJob(ReplicaPull)));
  }

  lemma ThreeInPlace(a: seq<Step>, b: seq<Step>, c: seq<Step>)
    requires InPlace(a, 11, 12) && InPlace(b, 12, 13) && InPlace(c, 13, 14)
    ensures InPlace(a + b + c, 11, 14)
  {
    Append(a, b, 11, 12, 13);
    Append(a + b, c, 11, 13, 14);
  }

  lemma CutOffInPlace(d: Deployment)
    ensures InPlace(CutOff(d), 0, 3)
  {
    var front := OnlyWith(d.lanTls, CloseLanFront);
    Alone(true, UnwirePush, 0, 1);
    Alone(d.lanTls, CloseLanFront, 1, 2);
    Append([UnwirePush], front, 0, 1, 2);
    Alone(true, MarkShuttingDown, 2, 3);
    Append([UnwirePush] + front, [MarkShuttingDown], 0, 2, 3);
  }

  lemma FiveInPlace(a: seq<Step>, b: seq<Step>, c: seq<Step>, e: seq<Step>)
    requires InPlace(a, 0, 3) && InPlace(b, 3, 11) && InPlace(c, 11, 14) && InPlace(e, 14, 17)
    ensures InPlace(a + b + c + e + [CloseDb], 0, 18)
  {
    Append(a, b, 0, 3, 11);
    Append(a + b, c, 0, 11, 14);
    Append(a + b + c, e, 0, 14, 17);
    Alone(true, CloseDb, 17, 18);
    Append(a + b + c + e, [CloseDb], 0, 17, 18);
  }

  lemma LetGoInPlace()
    ensures InPlace(LET_GO, 14, 17)
  {
    Listed(LET_GO, 14, 17);
  }

  lemma CloseListInPlace(d: Deployment)
    ensures InPlace(CloseList(d), 0, 18)
  {
    CutOffInPlace(d);
    SweepStepsInPlace(d.wiring);
    NodeStepsInPlace(d);
    LetGoInPlace();
    FiveInPlace(CutOff(d), StopSweeps(d.wiring), StopNodeJobs(d), LET_GO);
  }

  /** Exactly the steps that belong, each once, each in its place: which fixes the whole list. */
  lemma CloseListIs(d: Deployment)
    ensures InPlace(CloseList(d), 0, 18)
    ensures forall step :: step in CloseList(d) <==> Belongs(d, step)
  {
    CloseListInPlace(d);
    forall step ensures step in CloseList(d) <==> Belongs(d, step) {
      StepBelongs(d, step);
    }
  }

  /** The timers a boot arms are those its close stops, but for a replica's sweeps and for a refund sweep
      whose switch is off. */
  lemma ArmedIffStopped(d: Deployment, j: Job)
    ensures j in InitiallyArmed(d) <==>
              StopJob(j) in CloseList(d)
              && (j in {OutboxDrain, ReplicaPull} || (d.wiring.nodeRole != Replica && (j == ServiceRefunds ==> d.wiring.autoRefund)))
  {
    StepBelongs(d, StopJob(j));
  }

  lemma StepBelongs(d: Deployment, step: Step)
    ensures step in CloseList(d) <==> Belongs(d, step)
  {
    InSweepSteps(d.wiring, step);
    InNodeJobs(d, step);
    InTheRest(d, step);
    InFive(CutOff(d), StopSweeps(d.wiring), StopNodeJobs(d), LET_GO, step);
  }

  lemma InFive(a: seq<Step>, b: seq<Step>, c: seq<Step>, e: seq<Step>, step: Step)
    ensures step in a + b + c + e + [CloseDb] <==> step in a || step in b || step in c || step in e || step == CloseDb
  {
  }

  lemma InTheRest(d: Deployment, step: Step)
    ensures step in CutOff(d) <==> step == UnwirePush || (d.lanTls && step == CloseLanFront) || step == MarkShuttingDown
    ensures step in LET_GO <==> step == CloseSocket || step == StopAudio || step == DrainHttp
  {
    assert step in LET_GO <==> step == LET_GO[0] || step == LET_GO[1] || step == LET_GO[2];
  }

  lemma InNodeJobs(d: Deployment, step: Step)
    ensures step in StopNodeJobs(d) <==>
      || (d.revocation && step == StopRevocation)
      || (d.outbox && step == StopJob(OutboxDrain)) || (d.puller && step == StopJob(ReplicaPull))
  {
  }

  lemma InSweepSteps(w: Wiring, step: Step)
    ensures step in StopSweeps(w) <==>
      || step in {StopJob(Retention), StopJob(GrowthReaper), StopJob(RecoveryPrune), StopJob(AnonCleanup), StopStatusProbes, StopLatencyReader}
      || (w.hasForwardLedger && step == StopJob(ForwardLedgerPrune)) || (w.canRefund && step == StopJob(ServiceRefunds))
  {
    var a, c := [StopJob(Retention), StopJob(GrowthReaper)], [StopJob(RecoveryPrune), StopJob(AnonCleanup), StopStatusProbes, StopLatencyReader];
    assert step in a <==> step == a[0] || step == a[1];
    assert step in c <==> step == c[0] || step == c[1] || step == c[2] || step == c[3];
  }

  /** What the running process knows of its deployment: the steps of its close, the intervals armed at
      boot, and whether stdin is the desktop's lifetime pipe. */
  datatype Plan = Plan(steps: seq<Step>, armedAtBoot: set<Job>, parentPipe: bool)

  function PlanOf(d: Deployment): Plan {
    Plan(CloseList(d), InitiallyArmed(d), d.parentPipe)
  }

  /** The property of the one ordered list everything below rests on. */
  ghost predicate WellOrdered(p: Plan) {
    && |p.steps| >= 2 && Last(p.steps) == CloseDb && CloseDb !in Front(p.steps)
    && Last(Front(p.steps)) == DrainHttp && DrainHttp !in Front(Front(p.steps))
    && forall j :: j in p.armedAtBoot ==> StopJob(j) in Front(p.steps)
  }

  lemma EveryDeploymentIsWellOrdered(d: Deployment)
    ensures WellOrdered(PlanOf(d))
  {
    CloseListStopsEveryTimer(d);
  }

  // ----- states and events -----

  datatype Close = NotStarted | Running(next: nat) | Resolved | Rejected(at: nat)

  /** What the refund sweep has done: rows the current tick went through, rows claimed in all, those of
      them answered well (stamped) and badly, and how many were claimed after the sweep's stop. */
  datatype Refunds = Refunds(asked: nat, claimed: nat, stamped: nat, failed: nat, lateClaims: nat)

  /** The intervals, the ticks waiting for an answer, and the database they work on. */
  datatype Jobs = Jobs(
    armed: set<Job>,            // intervals that can still tick
    stopped: set<Job>,          // jobs whose stop has run
    inFlight: multiset<Job>,    // asynchronous ticks waiting for an answer
    dbOpen: bool,
    refunds: Refunds,
    work: seq<Job>,             // database work done, and for which job
    lateWork: seq<Job>,         // of it, what was done for a job after its stop
    deadWork: seq<Job>)         // of it, what was done after the database closed

  /** Who asked the process to end, and whether it has. */
  datatype Control = Control(
    fatalInProgress: bool,
    fatalAt: Option<nat>,       // when the hard timer was armed
    joined: bool,               // the fatal path has asked for the memoized close
    reentry: Gate,
    crashed: bool,              // the handler of an uncaught exception threw
    signalled: bool,
    parentFired: bool,
    now: nat,
    exit: Option<int>)

  datatype State = State(jobs: Jobs, close: Close, closeCalls: nat, control: Control)

  function Init(p: Plan): State {
    State(Jobs(p.armedAtBoot, {}, multiset{}, true, Refunds(0, 0, 0, 0, 0), [], [], []), NotStarted, 0,
          Control(false, None, false, Fresh(FATAL_REENTRY_LOG_WINDOW_MS), false, false, false, 0, None))
  }

  datatype Kind = Exception | Rejection

  datatype Event =
    | Tick(job: Job, asks: Option<nat>)                // an interval fires; Some: it has something to ask for
    | Resume(job: Job, ok: bool, more: Option<nat>)    // an awaited answer arrives; Some: another row is due
                                                       // (after so many due rows that could not be claimed)
    | Fatal(kind: Kind, reason: Reason, at: int)       // `at`: the wall clock, as the re-entry gate reads it
    | FatalJoinsClose | Signal | ParentPipeEnds
    | StepDone | StepThrows(applied: bool)             // the close sequence moves on, or rejects
    | CloseTellsSignal | CloseTellsFatal               // the two readers of the settled close
    | HardTimer | Elapse(ms: nat)

  /** Work after an await: the provider's answer for a refund row, the writer's verdicts on the outbox,
      a fetched snapshot. */
  predicate Asynchronous(j: Job) {
    j == ServiceRefunds || j == OutboxDrain || j == ReplicaPull
  }

  /** The outbox is a file and a snapshot is fetched over the network; every sweep starts by reading or
      deleting rows. */
  predicate StartsOnDb(j: Job) {
    j != OutboxDrain && j != ReplicaPull
  }

  /** A tick of these is skipped while an earlier one is still waiting. */
  predicate NeverOverlaps(j: Job) {
    j == ServiceRefunds || j == OutboxDrain
  }

  predicate Settled(c: Close) {
    c.Resolved? || c.Rejected?
  }

  predicate HardTimerDue(c: Control) {
    c.fatalAt.Some? && c.now >= c.fatalAt.value + FATAL_HARD_EXIT_MS
  }

  predicate AtStep(p: Plan, c: Close) {
    c.Running? && c.next < |p.steps|
  }

  /** Promise jobs are queued: the fatal path's call of close, the rest of the close up to its one wait,
      or a reader of a settled close. Nothing else happens before they are done. */
  predicate JobsQueued(p: Plan, s: State) {
    || (s.control.fatalAt.Some? && !s.control.joined)
    || (AtStep(p, s.close) && !Waits(p.steps[s.close.next]))
    || (Settled(s.close) && (s.control.signalled || s.control.joined))
  }

  /** Process exit ends everything. The signal's reader sits on the shared promise itself, the fatal
      path's one promise job further out: when both wait, the signal's comes first. */
  predicate Enabled(p: Plan, s: State, e: Event) {
    s.control.exit.None? &&
    match e
    case FatalJoinsClose => s.control.fatalAt.Some? && !s.control.joined
    case StepDone => StepEnabled(p, s)
    case StepThrows(_) => StepEnabled(p, s)
    case CloseTellsSignal => s.control.signalled && Settled(s.close)
    case CloseTellsFatal => s.control.joined && !s.control.signalled && Settled(s.close)
    case _ => !JobsQueued(p, s) && CallbackEnabled(p, s, e)
  }

  predicate StepEnabled(p: Plan, s: State) {
    AtStep(p, s.close) && (Waits(p.steps[s.close.next]) ==> !JobsQueued(p, s))
  }

  predicate CallbackEnabled(p: Plan, s: State, e: Event) {
    match e
    case Tick(j, _) => j in s.jobs.armed
    case Resume(j, _, _) => j in s.jobs.inFlight
    case ParentPipeEnds => p.parentPipe
    case HardTimer => HardTimerDue(s.control)
    case _ => true
  }

  function Work(s: Jobs, j: Job): Jobs {
    s.(work := s.work + [j],
       lateWork := if j in s.stopped then s.lateWork + [j] else s.lateWork,
       deadWork := if s.dbOpen then s.deadWork else s.deadWork + [j])
  }

  /** One more row is claimed and its refund asked for, after some that could not be claimed. */
  function Claim(s: Jobs, skipped: nat): Jobs {
    var r := s.refunds;
    s.(refunds := r.(asked := r.asked + skipped + 1, claimed := r.claimed + 1,
                     lateClaims := if ServiceRefunds in s.stopped then r.lateClaims + 1 else r.lateClaims))
  }

  /** A pull always has a snapshot to wait for; a refund tick waits iff a row was claimed within its cap,
      a delivery iff a record is owed. */
  function StartTick(s: Jobs, j: Job, asks: Option<nat>): Jobs {
    if NeverOverlaps(j) && j in s.inFlight then s
    else
      var s1 := if StartsOnDb(j) then Work(s, j) else s;
      if j == ServiceRefunds && asks.Some? && asks.value < SERVICE_SWEEP_MAX_PER_TICK then
        Claim(s1.(refunds := s1.refunds.(asked := 0), inFlight := s1.inFlight + multiset{j}), asks.value)
      else if j == ReplicaPull || (j == OutboxDrain && asks.Some?) then s1.(inFlight := s1.inFlight + multiset{j})
      else s1
  }

  /** A refund tick stamps its row or leaves it claimed, and claims the next one up to its cap, whatever
      was stopped. */
  function AnswerRefund(s: Jobs, ok: bool, more: Option<nat>): Jobs {
    var r := s.refunds;
    var s1 := Work(s, ServiceRefunds).(refunds := if ok then r.(stamped := r.stamped + 1) else r.(failed := r.failed + 1));
    if more.Some? && r.asked + more.value < SERVICE_SWEEP_MAX_PER_TICK then Claim(s1, more.value)
    else s1.(inFlight := s1.inFlight - multiset{ServiceRefunds})
  }

  /** What the other answers lead to: a delivery rewrites its file; a pull imports, unless it was stopped
      meanwhile. */
  function ResumeTick(s: Jobs, j: Job, ok: bool, more: Option<nat>): Jobs {
    if j == ServiceRefunds then AnswerRefund(s, ok, more)
    else
      var ended := s.(inFlight := s.inFlight - multiset{j});
      if ok && j != OutboxDrain && !(j == ReplicaPull && j in s.stopped) then Work(ended, j) else ended
  }

  function StepEffect(s: Jobs, step: Step): Jobs {
    match step
    case StopJob(j) => s.(armed := s.armed - {j}, stopped := s.stopped + {j})
    case CloseDb => s.(dbOpen := false)
    case _ => s
  }

  function CloseOnce(s: State): State {
    if s.close.NotStarted? then s.(close := Running(0), closeCalls := s.closeCalls + 1) else s
  }

  /** The guards' listener: the state it leaves, and whether it threw on the way. The conversion of the
      reason comes before anything else; the first fatal is marked before its line is written, and its
      timer armed after. */
  function Listener(c: Control, reason: Reason, at: int): (Control, bool) {
    if reason.Unprintable? then (c, true)
    else if c.fatalInProgress then
      var (g, line) := Acquire(c.reentry, at);
      (c.(reentry := g), line.Some? && !ShortLine(reason))
    else if !FullLine(reason) then (c.(fatalInProgress := true), true)
    else (c.(fatalInProgress := true, fatalAt := Some(c.now)), false)
  }

  /** A listener that throws for an uncaught exception ends the process at once. */
  function OnException(c: Control, reason: Reason, at: int): Control {
    var (c', threw) := Listener(c, reason, at);
    if threw then c'.(crashed := true, exit := Some(HANDLER_THREW_EXIT_CODE)) else c'
  }

  /** For an unhandled rejection, what the listener throws comes back as an uncaught exception. */
  function OnRejection(c: Control, reason: Reason, at: int): Control {
    var (c', threw) := Listener(c, reason, at);
    if threw then OnException(c', PLAIN, at) else c'
  }

  function Next(p: Plan, s: State, e: Event): State {
    match e
    case Tick(j, asks) => s.(jobs := StartTick(s.jobs, j, asks))
    case Resume(j, ok, more) => s.(jobs := ResumeTick(s.jobs, j, ok, more))
    case StepDone =>
      if AtStep(p, s.close) then
        s.(jobs := StepEffect(s.jobs, p.steps[s.close.next]),
           close := if s.close.next + 1 == |p.steps| then Resolved else Running(s.close.next + 1))
      else s
    case StepThrows(applied) =>
      if AtStep(p, s.close) then
        s.(jobs := if applied then StepEffect(s.jobs, p.steps[s.close.next]) else s.jobs,
           close := Rejected(s.close.next))
      else s
    case FatalJoinsClose => CloseOnce(s).(control := s.control.(joined := true))
    case Signal => if s.control.signalled then s else CloseOnce(s).(control := s.control.(signalled := true))
    case _ => s.(control := NextControl(s.control, s.close, e))
  }

  /** The events that change nothing but the process's own end. */
  function NextControl(c: Control, close: Close, e: Event): Control {
    match e
    case Fatal(kind, reason, at) => if kind == Exception then OnException(c, reason, at) else OnRejection(c, reason, at)
    case ParentPipeEnds => if c.parentFired then c else c.(parentFired := true, exit := Some(0))
    case CloseTellsSignal => c.(exit := Some(if close.Resolved? then 0 else 1))
    case CloseTellsFatal => c.(exit := Some(FATAL_EXIT_CODE))
    case HardTimer => c.(exit := Some(FATAL_EXIT_CODE))
    case Elapse(ms) => c.(now := c.now + ms)
    case _ => c
  }

  function Run(p: Plan, s: State, es: seq<Event>): State
    decreases es
  {
    if es == [] then s else Run(p, Next(p, s, es[0]), es[1..])
  }

  predicate Legal(p: Plan, s: State, es: seq<Event>)
    decreases es
  {
    es != [] ==> Enabled(p, s, es[0]) && Legal(p, Next(p, s, es[0]), es[1..])
  }

  ghost predicate Reachable(p: Plan, s: State) {
    exists es :: Legal(p, Init(p), es) && Run(p, Init(p), es) == s
  }

  // ----- the same process, as the program holds it -----

  /** The module-level and closure variables of index.ts, error-handling.ts and the close sequence;
      one method per callback the event loop can run. */
  class Process {
    const p: Plan
    const reentryGate: RateGate
    var armed: set<Job>
    var stopped: set<Job>
    var inFlight: multiset<Job>
    var dbOpen: bool
    var refunds: Refunds
    var work: seq<Job>
    var lateWork: seq<Job>
    var deadWork: seq<Job>
    var closePromise: Close
    var closeCalls: nat
    var fatalInProgress: bool
    var timerArmedAt: Option<nat>
    var joined: bool
    var crashed: bool
    var closing: bool
    var parentFired: bool
    var now: nat
    var exitCode: Option<int>

    constructor (p: Plan)
      ensures this.p == p && View() == Init(p) && fresh(reentryGate)
    {
      this.p := p;
      reentryGate := new RateGate(FATAL_REENTRY_LOG_WINDOW_MS);
      armed, stopped, inFlight, dbOpen := p.armedAtBoot, {}, multiset{}, true;
      refunds, work, lateWork, deadWork := Refunds(0, 0, 0, 0, 0), [], [], [];
      closePromise, closeCalls := NotStarted, 0;
      fatalInProgress, timerArmedAt, joined, crashed := false, None, false, false;
      closing, parentFired, now, exitCode := false, false, 0, None;
    }

    function Activity(): Jobs
      reads this
    {
      Jobs(armed, stopped, inFlight, dbOpen, refunds, work, lateWork, deadWork)
    }

    function Ending(): Control
      reads this, reentryGate
    {
      Control(fatalInProgress, timerArmedAt, joined, reentryGate.State(), crashed, closing, parentFired, now, exitCode)
    }

    function View(): State
      reads this, reentryGate
    {
      State(Activity(), closePromise, closeCalls, Ending())
    }

    method OnDb(j: Job)
      modifies this`work, this`lateWork, this`deadWork
      ensures Activity() == Work(old(Activity()), j)
    {
      work := work + [j];
      if j in stopped {
        lateWork := lateWork + [j];
      }
      if !dbOpen {
        deadWork := deadWork + [j];
      }
    }

    /** `requestOneTimeRefund`, then the call to the provider. */
    method ClaimRow(skipped: nat)
      modifies this`refunds
      ensures Activity() == Claim(old(Activity()), skipped)
    {
      var late := if ServiceRefunds in stopped then refunds.lateClaims + 1 else refunds.lateClaims;
      refunds := refunds.(asked := refunds.asked + skipped + 1, claimed := refunds.claimed + 1, lateClaims := late);
    }

    method OnTick(j: Job, asks: Option<nat>)
      modifies this`refunds, this`inFlight, this`work, this`lateWork, this`deadWork
      ensures Activity() == StartTick(old(Activity()), j, asks)
    {
      if NeverOverlaps(j) && j in inFlight {
        return;
      }
      if StartsOnDb(j) {
        OnDb(j);
      }
      if j == ServiceRefunds && asks.Some? && asks.value < SERVICE_SWEEP_MAX_PER_TICK {
        refunds := refunds.(asked := 0);
        inFlight := inFlight + multiset{j};
        ClaimRow(asks.value);
      } else if j == ReplicaPull || (j == OutboxDrain && asks.Some?) {
        inFlight := inFlight + multiset{j};
      }
    }

    method OnResume(j: Job, ok: bool, more: Option<nat>)
      modifies this`refunds, this`inFlight, this`work, this`lateWork, this`deadWork
      ensures Activity() == ResumeTick(old(Activity()), j, ok, more)
    {
      if j == ServiceRefunds {
        OnProviderAnswer(ok, more);
        return;
      }
      inFlight := inFlight - multiset{j};
      if ok && j != OutboxDrain && !(j == ReplicaPull && j in stopped) {
        OnDb(j);
      }
    }

    method OnProviderAnswer(ok: bool, more: Option<nat>)
      modifies this`refunds, this`inFlight, this`work, this`lateWork, this`deadWork
      ensures Activity() == AnswerRefund(old(Activity()), ok, more)
    {
      OnDb(ServiceRefunds);
      if ok {
        refunds := refunds.(stamped := refunds.stamped + 1);
      } else {
        refunds := refunds.(failed := refunds.failed + 1);
      }
      if more.Some? && refunds.asked + more.value < SERVICE_SWEEP_MAX_PER_TICK {
        ClaimRow(more.value);
      } else {
        inFlight := inFlight - multiset{ServiceRefunds};
      }
    }

    /** `closePromise ??= handle.close()` */
    method CloseOnceNow()
      modifies this`closePromise, this`closeCalls
      ensures View() == CloseOnce(old(View()))
    {
      if closePromise.NotStarted? {
        closeCalls := closeCalls + 1;
        closePromise := Running(0);
      }
    }

    /** The one listener behind both fatal events. */
    method OnFatal(reason: Reason, at: int) returns (threw: bool)
      modifies this`fatalInProgress, this`timerArmedAt, reentryGate
      ensures (Ending(), threw) == Listener(old(Ending()), reason, at)
    {
      if reason.Unprintable? {
        return true;
      }
      if fatalInProgress {
        var line := reentryGate.TryAcquire(at);
        return line.Some? && !ShortLine(reason);
      }
      fatalInProgress := true;
      if !FullLine(reason) {
        return true;
      }
      timerArmedAt := Some(now);
      return false;
    }

    method OnUncaught(reason: Reason, at: int)
      modifies this`fatalInProgress, this`timerArmedAt, this`crashed, this`exitCode, reentryGate
      ensures Ending() == OnException(old(Ending()), reason, at)
    {
      var threw := OnFatal(reason, at);
      if threw {
        crashed := true;
        exitCode := Some(HANDLER_THREW_EXIT_CODE);
      }
    }

    method OnUnhandled(reason: Reason, at: int)
      modifies this`fatalInProgress, this`timerArmedAt, this`crashed, this`exitCode, reentryGate
      ensures Ending() == OnRejection(old(Ending()), reason, at)
    {
      var threw := OnFatal(reason, at);
      if threw {
        OnUncaught(PLAIN, at);
      }
    }

    method OnFatalMicrotask()
      modifies this
      ensures View() == Next(p, old(View()), FatalJoinsClose)
    {
      CloseOnceNow();
      joined := true;
    }

    method OnSignal()
      modifies this
      ensures View() == Next(p, old(View()), Signal)
    {
      if closing {
        return;
      }
      closing := true;
      CloseOnceNow();
    }

    method OnParentGone()
      modifies this
      ensures View() == Next(p, old(View()), ParentPipeEnds)
    {
      if parentFired {
        return;
      }
      parentFired := true;
      exitCode := Some(0);
    }

    method Perform(step: Step)
      modifies this`armed, this`stopped, this`dbOpen
      ensures Activity() == StepEffect(old(Activity()), step)
    {
      match step {
        case StopJob(j) =>
          armed := armed - {j};
          stopped := stopped + {j};
        case CloseDb =>
          dbOpen := false;
        case _ =>
      }
    }

    method OnStepDone()
      requires AtStep(p, closePromise)
      modifies this
      ensures View() == Next(p, old(View()), StepDone)
    {
      var i := closePromise.next;
      Perform(p.steps[i]);
      closePromise := if i + 1 == |p.steps| then Resolved else Running(i + 1);
    }

    /** The step's error is rethrown, so nothing after it runs. */
    method OnStepThrew(applied: bool)
      requires AtStep(p, closePromise)
      modifies this
      ensures View() == Next(p, old(View()), StepThrows(applied))
    {
      var i := closePromise.next;
      if applied {
        Perform(p.steps[i]);
      }
      closePromise := Rejected(i);
    }

    method OnCloseSettledForSignal()
      modifies this`exitCode
      ensures View() == Next(p, old(View()), CloseTellsSignal)
    {
      exitCode := Some(if closePromise.Resolved? then 0 else 1);
    }

    method OnCloseSettledForFatal()
      modifies this`exitCode
      ensures View() == Next(p, old(View()), CloseTellsFatal)
    {
      exitCode := Some(FATAL_EXIT_CODE);
    }

    method OnHardTimer()
      modifies this`exitCode
      ensures View() == Next(p, old(View()), HardTimer)
    {
      exitCode := Some(FATAL_EXIT_CODE);
    }

    method OnElapse(ms: nat)
      modifies this`now
      ensures View() == Next(p, old(View()), Elapse(ms))
    {
      now := now + ms;
    }

    /** The event loop: whichever callback or promise job is next. */
    method Dispatch(e: Event)
      requires Enabled(p, View(), e)
      modifies this, reentryGate
      ensures View() == Next(p, old(View()), e)
    {
      match e {
        case Tick(j, asks) => OnTick(j, asks);
        case Resume(j, ok, more) => OnResume(j, ok, more);
        case Fatal(kind, reason, at) =>
          if kind == Exception {
            OnUncaught(reason, at);
          } else {
            OnUnhandled(reason, at);
          }
        case FatalJoinsClose => OnFatalMicrotask();
        case Signal => OnSignal();
        case ParentPipeEnds => OnParentGone();
        case StepDone => OnStepDone();
        case StepThrows(applied) => OnStepThrew(applied);
        case CloseTellsSignal => OnCloseSettledForSignal();
        case CloseTellsFatal => OnCloseSettledForFatal();
        case HardTimer => OnHardTimer();
        case Elapse(ms) => OnElapse(ms);
      }
    }

    /** A whole life: the process as the program holds it is always where the runs below say it is. */
    method Drive(es: seq<Event>)
      requires Legal(p, View(), es)
      modifies this, reentryGate
      ensures View() == Run(p, old(View()), es)
    {
      var i := 0;
      assert es[0..] == es;
      while i < |es|
        invariant 0 <= i <= |es|
        invariant Legal(p, View(), es[i..]) && Run(p, View(), es[i..]) == Run(p, old(View()), es)
      {
        assert es[i..][0] == es[i] && es[i..][1..] == es[i + 1..];
        Dispatch(es[i]);
        i := i + 1;
      }
    }
  }
}
