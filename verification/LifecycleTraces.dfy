/** What a run did, told by its callbacks alone: the process's variables are counts, sums and ledgers over
    the events, and the driven object holds exactly these. */
module LifecycleTraces {
  import opened Prelude
  import opened Reasons
  import opened Sweeps
  import RateGates
  import opened Lifecycle
  import opened LifecycleSafety
  import opened FatalLiveness

  /** How many of the events are of a kind. */
  function Count(es: seq<Event>, which: Event -> bool): nat {
    if es == [] then 0 else Count(Front(es), which) + (if which(Last(es)) then 1 else 0)
  }

  lemma BeforeLast(p: Plan, s: State, es: seq<Event>)
    requires es != []
    ensures Run(p, s, es) == Next(p, Run(p, s, Front(es)), Last(es))
    ensures Legal(p, s, es) <==> Legal(p, s, Front(es)) && Enabled(p, Run(p, s, Front(es)), Last(es))
  {
    FrontThenLast(es);
    RunSnoc(p, s, Front(es), Last(es));
  }

  lemma InvAfter(p: Plan, es: seq<Event>)
    requires WellOrdered(p) && Legal(p, Init(p), es)
    ensures Inv(p, Run(p, Init(p), es))
  {
    InitInv(p);
    RunKeepsInv(p, Init(p), es);
  }

  // ----- the provider's answers -----

  predicate Accepted(e: Event) {
    e.Resume? && e.job == ServiceRefunds && e.ok
  }

  predicate Refused(e: Event) {
    e.Resume? && e.job == ServiceRefunds && !e.ok
  }

  lemma OneAnswer(p: Plan, s: State, e: Event)
    ensures var r, r' := s.jobs.refunds, Next(p, s, e).jobs.refunds;
            && r'.stamped == r.stamped + (if Accepted(e) then 1 else 0)
            && r'.failed == r.failed + (if Refused(e) then 1 else 0)
  {
  }

  /** A row is stamped by each answer of the provider that accepts, and by nothing else; each refusal
      leaves one claimed and unstamped. */
  lemma {:induction false} AnswersAreCounted(p: Plan, s: State, es: seq<Event>)
    ensures var r, r' := s.jobs.refunds, Run(p, s, es).jobs.refunds;
            && r'.stamped == r.stamped + Count(es, Accepted)
            && r'.failed == r.failed + Count(es, Refused)
  {
    if es != [] {
      AnswersAreCounted(p, s, Front(es));
      BeforeLast(p, s, es);
      OneAnswer(p, Run(p, s, Front(es)), Last(es));
    }
  }

  // ----- the rows a refund tick goes through -----

  /** How many rows the tick under way may still go through; None when no tick of the sweep waits. */
  function Room(es: seq<Event>): Option<nat> {
    if es == [] then None
    else
      var room := Room(Front(es));
      match Last(es)
      case Tick(ServiceRefunds, Some(skipped)) => if room.None? then Fit(20, skipped) else room
      case Resume(ServiceRefunds, _, Some(skipped)) => if room.Some? then Fit(room.value, skipped) else None
      case Resume(ServiceRefunds, _, None) => None
      case _ => room
  }

  /** Some rows that cannot be claimed, and one that can, if there is room for all of them. */
  function Fit(room: nat, skipped: nat): Option<nat> {
    if skipped < room then Some(room - skipped - 1) else None
  }

  /** The last event asks for a row, and the tick it belongs to waits for that row's answer. */
  predicate LastClaims(es: seq<Event>)
    requires es != []
  {
    match Last(es)
    case Tick(ServiceRefunds, Some(_)) => Room(Front(es)).None? && Room(es).Some?
    case Resume(ServiceRefunds, _, Some(_)) => Room(es).Some?
    case _ => false
  }

  function Claims(es: seq<Event>): nat {
    if es == [] then 0 else Claims(Front(es)) + (if LastClaims(es) then 1 else 0)
  }

  predicate Books(s: Jobs, room: Option<nat>) {
    if ServiceRefunds in s.inFlight
    then s.refunds.asked <= 20 && room == Some(20 - s.refunds.asked)
    else room == None
  }

  lemma OneRow(p: Plan, s: State, es: seq<Event>)
    requires es != [] && Enabled(p, s, Last(es)) && RefundInv(s.jobs) && Books(s.jobs, Room(Front(es)))
    ensures Books(Next(p, s, Last(es)).jobs, Room(es))
    ensures Next(p, s, Last(es)).jobs.refunds.claimed == s.jobs.refunds.claimed + (if LastClaims(es) then 1 else 0)
  {
    match Last(es)
    case Tick(j, asks) => TickRow(s.jobs, j, asks, es);
    case Resume(j, ok, more) => AnswerRow(s.jobs, j, ok, more, es);
    case _ => assert SameWork(Next(p, s, Last(es)).jobs, s.jobs);
  }

  lemma TickRow(s: Jobs, j: Job, asks: Option<nat>, es: seq<Event>)
    requires es != [] && Last(es) == Tick(j, asks) && RefundInv(s) && Books(s, Room(Front(es)))
    ensures var r := StartTick(s, j, asks); Books(r, Room(es)) && r.refunds.claimed == s.refunds.claimed + (if LastClaims(es) then 1 else 0)
  {
  }

  lemma AnswerRow(s: Jobs, j: Job, ok: bool, more: Option<nat>, es: seq<Event>)
    requires es != [] && Last(es) == Resume(j, ok, more) && j in s.inFlight && RefundInv(s) && Books(s, Room(Front(es)))
    ensures var r := ResumeTick(s, j, ok, more); Books(r, Room(es)) && r.refunds.claimed == s.refunds.claimed + (if LastClaims(es) then 1 else 0)
  {
    if j == ServiceRefunds {
      assert s.inFlight[ServiceRefunds] == 1;
    }
  }

  /** What is claimed, and what a waiting tick may still go through, follows from what the rows and answers
      were: a tick goes on while the next claimable row is among its first twenty. */
  lemma {:induction false} ClaimsFollow(p: Plan, es: seq<Event>)
    requires WellOrdered(p) && Legal(p, Init(p), es)
    ensures Books(Run(p, Init(p), es).jobs, Room(es)) && Run(p, Init(p), es).jobs.refunds.claimed == Claims(es)
  {
    if es != [] {
      BeforeLast(p, Init(p), es);
      ClaimsFollow(p, Front(es));
      InvAfter(p, Front(es));
      OneRow(p, Run(p, Init(p), Front(es)), es);
    }
  }

  /** The rows gone through by the answers of a tick that each led to another one. */
  function RowsOf(during: seq<Event>): nat {
    if during == [] then 0
    else RowsOf(Front(during)) + (if Last(during).Resume? && Last(during).job == ServiceRefunds && Last(during).more.Some?
                                  then Last(during).more.value + 1 else 0)
  }

  ghost predicate EachHasAnother(during: seq<Event>) {
    forall e :: e in during && e.Resume? && e.job == ServiceRefunds ==> e.more.Some?
  }

  /** While a tick waits with room for so many rows, only its own answers change that. */
  lemma RoomGoesOn(es: seq<Event>, room: nat)
    requires es != [] && Room(Front(es)) == Some(room)
    requires Answer(Last(es)) ==> Last(es).more.Some? && Last(es).more.value < room
    ensures Room(es) == Some(if Answer(Last(es)) then room - Last(es).more.value - 1 else room)
    ensures Claims(es) == Claims(Front(es)) + (if Answer(Last(es)) then 1 else 0)
  {
  }

  /** Whatever comes between, a tick whose rows are among the first twenty has claimed each of them, and no
      other tick starts. */
  lemma {:induction false} TickGoesOn(before: seq<Event>, skipped: nat, during: seq<Event>)
    requires Room(before).None? && EachHasAnother(during)
    requires skipped + 1 + RowsOf(during) <= 20
    ensures var es := before + [Tick(ServiceRefunds, Some(skipped))] + during;
            Room(es) == Some(20 - (skipped + 1 + RowsOf(during))) && Claims(es) == Claims(before) + 1 + Count(during, Answer)
  {
    var start := before + [Tick(ServiceRefunds, Some(skipped))];
    if during == [] {
      assert start + during == start && Front(start) == before;
    } else {
      var es, e := start + during, Last(during);
      assert Front(es) == start + Front(during) && Last(es) == e;
      assert e in during;
      TickGoesOn(before, skipped, Front(during));
      RoomGoesOn(es, 20 - (skipped + 1 + RowsOf(Front(during))));
    }
  }

  predicate Answer(e: Event) {
    e.Resume? && e.job == ServiceRefunds
  }

  // ----- the stop list -----

  predicate Done(e: Event) {
    e.StepDone?
  }

  predicate Applied(e: Event) {
    e.StepDone? || (e.StepThrows? && e.applied)
  }

  predicate Threw(e: Event) {
    e.StepThrows?
  }

  /** Exactly the jobs are stopped whose step took effect, and the database is closed iff its step did. */
  ghost predicate StoppedBy(p: Plan, jobs: Jobs, n: nat)
    requires n <= |p.steps|
  {
    && (forall j :: j in jobs.stopped <==> StopJob(j) in p.steps[..n])
    && (jobs.dbOpen <==> CloseDb !in p.steps[..n])
  }

  lemma OneStep(p: Plan, s: Jobs, n: nat)
    requires n < |p.steps| && StoppedBy(p, s, n)
    ensures StoppedBy(p, StepEffect(s, p.steps[n]), n + 1)
  {
    assert p.steps[..n + 1] == p.steps[..n] + [p.steps[n]];
  }

  lemma StepsCount(p: Plan, s: State, e: Event)
    requires Inv(p, s) && Enabled(p, s, e)
    ensures Progress(p, Next(p, s, e).close) == Progress(p, s.close) + (if Done(e) then 1 else 0)
    ensures Applied(e) ==> Progress(p, s.close) < |p.steps| && AtStep(p, s.close)
    ensures Applied(e) ==> Next(p, s, e).jobs == StepEffect(s.jobs, p.steps[s.close.next])
    ensures !Applied(e) ==> Next(p, s, e).jobs.stopped == s.jobs.stopped && Next(p, s, e).jobs.dbOpen == s.jobs.dbOpen
    ensures Next(p, s, e).close.Rejected? <==> s.close.Rejected? || Threw(e)
    ensures Done(e) || Threw(e) ==> !s.close.Rejected?
  {
    if !(e.StepDone? || e.StepThrows? || e.Signal? || e.FatalJoinsClose?) {
      assert Next(p, s, e).close == s.close;
    }
  }

  /** How far the close has come is how many steps were done; it rejects iff one threw, and then nothing
      follows; and what is stopped or closed is what the steps that took effect name. */
  lemma {:induction false} StepsFollow(p: Plan, es: seq<Event>)
    requires WellOrdered(p) && Legal(p, Init(p), es)
    ensures var s, n := Run(p, Init(p), es), Count(es, Applied);
            && Progress(p, s.close) == Count(es, Done)
            && n <= |p.steps| && StoppedBy(p, s.jobs, n)
            && (s.close.Rejected? <==> Count(es, Threw) == 1) && Count(es, Threw) <= 1
            && (!s.close.Rejected? ==> n == Count(es, Done))
  {
    if es != [] {
      BeforeLast(p, Init(p), es);
      StepsFollow(p, Front(es));
      InvAfter(p, Front(es));
      var s, e := Run(p, Init(p), Front(es)), Last(es);
      StepsCount(p, s, e);
      if Applied(e) {
        OneStep(p, s.jobs, s.close.next);
      }
    }
  }

  // ----- work on the database -----

  /** A sweep's tick works on the database unless it is skipped; so does a refund's answer, which counts as
      work whatever it says, and an imported snapshot. A delivery rewrites a file. */
  predicate TouchesDb(s: Jobs, e: Event) {
    match e
    case Tick(ServiceRefunds, _) => ServiceRefunds !in s.inFlight
    case Tick(j, _) => j != OutboxDrain && j != ReplicaPull
    case Resume(ServiceRefunds, _, _) => true
    case Resume(ReplicaPull, ok, _) => ok && ReplicaPull !in s.stopped
    case _ => false
  }

  /** Which events of a run worked on the database, and for which job; `late`, of these, after its stop. */
  function WorkOf(p: Plan, es: seq<Event>, late: bool): seq<Job> {
    if es == [] then []
    else WorkOf(p, Front(es), late) + WorkBy(Run(p, Init(p), Front(es)).jobs, Last(es), late)
  }

  function WorkBy(s: Jobs, e: Event, late: bool): seq<Job> {
    if TouchesDb(s, e) && (late ==> e.job in s.stopped) then [e.job] else []
  }

  predicate Recorded(a: Jobs, b: Jobs, e: Event) {
    && b.work == a.work + WorkBy(a, e, false)
    && b.lateWork == a.lateWork + WorkBy(a, e, true)
    && b.deadWork == a.deadWork + (if a.dbOpen then [] else WorkBy(a, e, false))
  }

  lemma TickWork(s: Jobs, j: Job, asks: Option<nat>)
    ensures Recorded(s, StartTick(s, j, asks), Tick(j, asks))
  {
    if NeverOverlaps(j) && j in s.inFlight {
    } else if StartsOnDb(j) {
      assert Recorded(s, Work(s, j), Tick(j, asks));
    }
  }

  lemma AnswerWork(s: Jobs, j: Job, ok: bool, more: Option<nat>)
    requires Asynchronous(j)
    ensures Recorded(s, ResumeTick(s, j, ok, more), Resume(j, ok, more))
  {
    if j == ServiceRefunds {
      assert Recorded(s, Work(s, j), Resume(j, ok, more));
    }
  }

  /** In any state at all, also one that no run reaches. */
  lemma OneWork(p: Plan, s: State, e: Event)
    requires e.Resume? ==> Asynchronous(e.job)
    ensures Recorded(s.jobs, Next(p, s, e).jobs, e)
  {
    match e
    case Tick(j, asks) => TickWork(s.jobs, j, asks);
    case Resume(j, ok, more) => AnswerWork(s.jobs, j, ok, more);
    case _ => assert SameRecords(s.jobs, Next(p, s, e).jobs);
  }

  predicate SameRecords(a: Jobs, b: Jobs) {
    a.work == b.work && a.lateWork == b.lateWork && a.deadWork == b.deadWork
  }

  lemma {:induction false} WorkFollows(p: Plan, es: seq<Event>)
    requires WellOrdered(p) && Legal(p, Init(p), es)
    ensures var s := Run(p, Init(p), es).jobs; s.work == WorkOf(p, es, false) && s.lateWork == WorkOf(p, es, true)
  {
    if es != [] {
      BeforeLast(p, Init(p), es);
      WorkFollows(p, Front(es));
      InvAfter(p, Front(es));
      OneWork(p, Run(p, Init(p), Front(es)), Last(es));
    }
  }

  /** Whatever touches the database finds it open; and only the refund sweep touches it after its stop. */
  lemma WorkFindsDbOpen(p: Plan, s: State, e: Event)
    requires WellOrdered(p) && Reachable(p, s) && Enabled(p, s, e) && TouchesDb(s.jobs, e)
    ensures s.jobs.dbOpen && (e.job in s.jobs.stopped ==> e.job == ServiceRefunds)
  {
    ReachableInv(p, s);
    CallbackFindsDbOpen(p, s, e);
  }

  lemma OneLateClaim(p: Plan, s: State, e: Event)
    ensures var r, r' := s.jobs.refunds, Next(p, s, e).jobs.refunds;
            && r.claimed <= r'.claimed
            && r'.lateClaims == r.lateClaims + (if ServiceRefunds in s.jobs.stopped then r'.claimed - r.claimed else 0)
            && s.jobs.stopped <= Next(p, s, e).jobs.stopped
  {
    if !(e.Tick? || e.Resume? || e.StepDone? || e.StepThrows? || e.Signal? || e.FatalJoinsClose?) {
      assert Next(p, s, e).jobs == s.jobs;
    }
  }

  /** Claims count as late exactly from the stop of the refund sweep on. */
  lemma {:induction false} LateClaimsFollow(p: Plan, s: State, es: seq<Event>)
    ensures var (a, b) := (s.jobs, Run(p, s, es).jobs);
            && a.stopped <= b.stopped && a.refunds.claimed <= b.refunds.claimed
            && (ServiceRefunds in a.stopped ==>
                  b.refunds.lateClaims - a.refunds.lateClaims == b.refunds.claimed - a.refunds.claimed)
            && (ServiceRefunds !in b.stopped ==> b.refunds.lateClaims == a.refunds.lateClaims)
  {
    if es != [] {
      BeforeLast(p, s, es);
      LateClaimsFollow(p, s, Front(es));
      OneLateClaim(p, Run(p, s, Front(es)), Last(es));
    }
  }

  /** So in a run whose stop of the sweep comes after `before`, the late claims are those of the rest. */
  lemma LateClaimsAreTheRest(p: Plan, before: seq<Event>, e: Event, after: seq<Event>)
    requires WellOrdered(p) && Legal(p, Init(p), before + [e] + after)
    requires ServiceRefunds !in Run(p, Init(p), before).jobs.stopped
    requires ServiceRefunds in Run(p, Init(p), before + [e]).jobs.stopped
    ensures Run(p, Init(p), before + [e] + after).jobs.refunds.lateClaims == Claims(before + [e] + after) - Claims(before)
  {
    var s := Run(p, Init(p), before);
    LegalAppend(p, Init(p), before + [e], after);
    RunAppend(p, Init(p), before + [e], after);
    RunSnoc(p, Init(p), before, e);
    ClaimsFollow(p, before);
    ClaimsFollow(p, before + [e] + after);
    LateClaimsFollow(p, Init(p), before);
    LateClaimsFollow(p, Next(p, s, e), after);
    OneLateClaim(p, s, e);
    StoppingClaimsNothing(p, s, e);
  }

  lemma StoppingClaimsNothing(p: Plan, s: State, e: Event)
    requires Next(p, s, e).jobs.stopped != s.jobs.stopped
    ensures Next(p, s, e).jobs.refunds == s.jobs.refunds
  {
  }

  // ----- the two jobs of a replica's node -----

  predicate Pulls(e: Event) {
    e.Tick? && e.job == ReplicaPull
  }

  predicate Pulled(e: Event) {
    e.Resume? && e.job == ReplicaPull
  }

  /** A delivery waits for the writer's verdicts. */
  function Delivering(es: seq<Event>): bool {
    if es == [] then false
    else
      match Last(es)
      case Tick(OutboxDrain, Some(_)) => true
      case Resume(OutboxDrain, _, _) => false
      case _ => Delivering(Front(es))
  }

  lemma OneWait(p: Plan, s: State, e: Event)
    requires Enabled(p, s, e)
    ensures var (a, b) := (s.jobs.inFlight, Next(p, s, e).jobs.inFlight);
            && b[ReplicaPull] + (if Pulled(e) then 1 else 0) == a[ReplicaPull] + (if Pulls(e) then 1 else 0)
            && b[OutboxDrain] == (match e
                                  case Tick(OutboxDrain, Some(_)) => if a[OutboxDrain] == 0 then 1 else a[OutboxDrain]
                                  case Resume(OutboxDrain, _, _) => a[OutboxDrain] - 1
                                  case _ => a[OutboxDrain])
  {
    if !(e.Tick? || e.Resume? || e.StepDone? || e.StepThrows? || e.Signal? || e.FatalJoinsClose?) {
      assert Next(p, s, e).jobs == s.jobs;
    }
  }

  /** Every pull that was started and not answered is still awaited, however many; of deliveries there is
      at most one. */
  lemma {:induction false} WaitsFollow(p: Plan, es: seq<Event>)
    requires WellOrdered(p) && Legal(p, Init(p), es)
    ensures var waiting := Run(p, Init(p), es).jobs.inFlight;
            && waiting[ReplicaPull] + Count(es, Pulled) == Count(es, Pulls)
            && waiting[OutboxDrain] == (if Delivering(es) then 1 else 0)
  {
    if es != [] {
      BeforeLast(p, Init(p), es);
      WaitsFollow(p, Front(es));
      OneWait(p, Run(p, Init(p), Front(es)), Last(es));
    }
  }

  // ----- who asked the process to end -----

  predicate Pipe(e: Event) { e.ParentPipeEnds? }
  predicate Signals(e: Event) { e.Signal? }
  predicate Joins(e: Event) { e.FatalJoinsClose? }
  predicate IsFatal(e: Event) { e.Fatal? }

  function TimePassed(es: seq<Event>): nat {
    if es == [] then 0 else TimePassed(Front(es)) + (if Last(es).Elapse? then Last(es).ms else 0)
  }

  /** When the hard timer was armed: at the first fatal, if it is one that gets so far. */
  function TimerSet(es: seq<Event>): Option<nat> {
    if es == [] then None
    else if Count(Front(es), IsFatal) > 0 then TimerSet(Front(es))
    else if IsFatal(Last(es)) && Arms(Last(es).kind, Last(es).reason) then Some(TimePassed(Front(es)))
    else None
  }

  /** The code with which an event ends the process, if it does. */
  function EndsWith(c: Control, close: Close, e: Event): Option<int> {
    match e
    case ParentPipeEnds => Some(0)
    case CloseTellsSignal => Some(if close.Resolved? then 0 else 1)
    case CloseTellsFatal => Some(1)
    case HardTimer => Some(1)
    case Fatal(kind, reason, at) =>
      if (if c.fatalInProgress then BreaksHandler(c, kind, reason, at) else Crashes(kind, reason))
      then Some(7) else None
    case _ => None
  }

  ghost predicate FlagsOf(c: Control, es: seq<Event>) {
    && (c.signalled <==> Count(es, Signals) > 0) && (c.joined <==> Count(es, Joins) > 0)
    && (c.parentFired <==> Count(es, Pipe) > 0)
    && c.now == TimePassed(es) && c.fatalAt == TimerSet(es)
    && (c.exit.None? ==> (c.fatalInProgress <==> Count(es, IsFatal) > 0))
  }

  lemma OneFlag(p: Plan, s: State, es: seq<Event>)
    requires es != [] && Enabled(p, s, Last(es)) && FlagsOf(s.control, Front(es)) && Inv(p, s)
    ensures FlagsOf(Next(p, s, Last(es)).control, es)
    ensures Next(p, s, Last(es)).control.exit == EndsWith(s.control, s.close, Last(es))
  {
    var c, e := s.control, Last(es);
    if e.Fatal? {
      FatalKeepsFlags(c, e.kind, e.reason, e.at);
      LaterFatal(c, e.kind, e.reason, e.at);
      if !c.fatalInProgress {
        FirstFatal(c, e.kind, e.reason, e.at);
      }
    }
  }

  /** Whether it was told to end, by whom and when, what its clock shows and when its hard timer was set
      follow from the events; and it ends with an event that ends it, with that event's code. */
  lemma {:induction false} EndingFollows(p: Plan, es: seq<Event>)
    requires WellOrdered(p) && Legal(p, Init(p), es)
    ensures var c := Run(p, Init(p), es).control;
            && FlagsOf(c, es)
            && c.exit == (if es == [] then None
                          else EndsWith(Run(p, Init(p), Front(es)).control, Run(p, Init(p), Front(es)).close, Last(es)))
  {
    if es != [] {
      BeforeLast(p, Init(p), es);
      EndingFollows(p, Front(es));
      InvAfter(p, Front(es));
      OneFlag(p, Run(p, Init(p), Front(es)), es);
    }
  }

  /** The clock readings at which the re-entry gate was asked for a line: by the first fatal only if what it
      threw came back. */
  function LinesAskedFor(p: Plan, es: seq<Event>): seq<int> {
    if es == [] then []
    else
      LinesAskedFor(p, Front(es)) + LineAskedBy(Run(p, Init(p), Front(es)).control, Last(es))
  }

  function LineAskedBy(c: Control, e: Event): seq<int> {
    match e
    case Fatal(kind, reason, at) =>
      if c.fatalInProgress then LineAskedAt(c, kind, reason, at) else if Silences(kind, reason) then [at] else []
    case _ => []
  }

  lemma OneLine(p: Plan, s: State, e: Event)
    requires Inv(p, s) && Enabled(p, s, e)
    ensures Next(p, s, e).control.reentry == RateGates.After(s.control.reentry, LineAskedBy(s.control, e))
  {
    var c := s.control;
    if e.Fatal? {
      RateGates.AfterOneOrTwo(c.reentry, e.at);
      LaterFatal(c, e.kind, e.reason, e.at);
      if !c.fatalInProgress {
        FirstLine(c, e.kind, e.reason, e.at);
      }
    }
  }

  lemma FirstLine(c: Control, kind: Kind, reason: Reason, at: int)
    requires !c.fatalInProgress && c.exit.None? && c.fatalAt.None?
    ensures Take(c, kind, reason, at).reentry == (if Silences(kind, reason) then RateGates.Acquire(c.reentry, at).0 else c.reentry)
  {
    FirstFatal(c, kind, reason, at);
  }

  lemma {:induction false} LinesFollow(p: Plan, es: seq<Event>)
    requires WellOrdered(p) && Legal(p, Init(p), es)
    ensures Run(p, Init(p), es).control.reentry ==
            RateGates.After(RateGates.Fresh(1_000), LinesAskedFor(p, es))
  {
    if es != [] {
      var s, before := Run(p, Init(p), Front(es)), LinesAskedFor(p, Front(es));
      BeforeLast(p, Init(p), es);
      LinesFollow(p, Front(es));
      InvAfter(p, Front(es));
      OneLine(p, s, Last(es));
      RateGates.AfterAppend(RateGates.Fresh(1_000), before, LineAskedBy(s.control, Last(es)));
    }
  }

  // ----- the program's own variables -----

  /** Each refund variable, told by the rows and answers of the run. */
  ghost predicate RefundsFollow(es: seq<Event>, s: Jobs) {
    && s.refunds.stamped == Count(es, Accepted) && s.refunds.failed == Count(es, Refused)
    && s.refunds.claimed == Claims(es) && Books(s, Room(es))
  }

  /** The rest of the background work and how far its end has come. */
  ghost predicate JobsFollow(p: Plan, es: seq<Event>, s: State) {
    && RefundsFollow(es, s.jobs) && s.jobs.work == WorkOf(p, es, false) && s.jobs.lateWork == WorkOf(p, es, true)
    && s.jobs.inFlight[ReplicaPull] + Count(es, Pulled) == Count(es, Pulls)
    && s.jobs.inFlight[OutboxDrain] == (if Delivering(es) then 1 else 0)
    && Progress(p, s.close) == Count(es, Done) && (s.close.Rejected? <==> Count(es, Threw) == 1)
    && Count(es, Applied) <= |p.steps| && StoppedBy(p, s.jobs, Count(es, Applied))
    && s.jobs.armed == p.armedAtBoot - s.jobs.stopped
  }

  lemma RunFollows(p: Plan, es: seq<Event>)
    requires WellOrdered(p) && Legal(p, Init(p), es)
    ensures var s := Run(p, Init(p), es); JobsFollow(p, es, s) && FlagsOf(s.control, es) && Safe(s)
  {
    AnswersAreCounted(p, Init(p), es);
    ClaimsFollow(p, es);
    WorkFollows(p, es);
    WaitsFollow(p, es);
    StepsFollow(p, es);
    EndingFollows(p, es);
    InvAfter(p, es);
  }

  /** Driving the process object through any legal sequence of callbacks, in any deployment: it is safe, and
      its variables are what the callbacks make them. */
  method LiveSafely(d: Deployment, es: seq<Event>) returns (proc: Process)
    requires Legal(PlanOf(d), Init(PlanOf(d)), es)
    ensures fresh(proc) && proc.p == PlanOf(d) && proc.View() == Run(PlanOf(d), Init(PlanOf(d)), es)
    ensures Safe(proc.View()) && FlagsOf(proc.Ending(), es)
    ensures JobsFollow(PlanOf(d), es, proc.View())
    ensures proc.refunds.stamped == Count(es, Accepted) && proc.refunds.failed == Count(es, Refused)
  {
    proc := new Process(PlanOf(d));
    proc.Drive(es);
    EveryDeploymentIsWellOrdered(d);
    RunFollows(PlanOf(d), es);
  }
}
