/** bootstrap-sweeps.ts: which background timers a node arms, and the one that runs a transaction. */
module Sweeps {
  import opened Prelude

  datatype NodeRole = Single | Writer | Replica

  /** The six sweeps of bootstrap-sweeps.ts, and the two timers only a replica's node runtime arms. */
  datatype Job =
    | Retention | ServiceRefunds | GrowthReaper | ForwardLedgerPrune | RecoveryPrune | AnonCleanup
    | OutboxDrain | ReplicaPull

  /** `canRefund`: a refund action exists. `autoRefund`: it may run unattended. */
  datatype Wiring = Wiring(nodeRole: NodeRole, canRefund: bool, autoRefund: bool, hasForwardLedger: bool)

  datatype Handle = NotScheduled | Scheduled(id: nat)

  /** What a sweep hands back: its `stop` clears this handle. */
  datatype Sweeper = Sweeper(job: Job, handle: Handle)

  datatype BackgroundSweeps = BackgroundSweeps(
    retention: Sweeper,
    serviceRefunds: Option<Sweeper>,
    growthReaper: Sweeper,
    forwardLedgerPrune: Option<Sweeper>,
    recoveryPrune: Sweeper,
    anonCleanup: Sweeper)

  /** The sweeps that must be armed: none on a replica; a missing role never silences one. */
  function ArmedBy(w: Wiring): set<Job> {
    if w.nodeRole == Replica then {}
    else {Retention, GrowthReaper, RecoveryPrune, AnonCleanup}
         + (if w.canRefund && w.autoRefund then {ServiceRefunds} else {})
         + (if w.hasForwardLedger then {ForwardLedgerPrune} else {})
  }

  /** The sweepers a boot returns, in the order they are made; an absent one is no timer at all. */
  function Sweepers(b: BackgroundSweeps): seq<Sweeper> {
    var first := Snoc([], b.retention);
    var second := if b.serviceRefunds.Some? then Snoc(first, b.serviceRefunds.value) else first;
    var third := Snoc(second, b.growthReaper);
    var fourth := if b.forwardLedgerPrune.Some? then Snoc(third, b.forwardLedgerPrune.value) else third;
    Snoc(Snoc(fourth, b.recoveryPrune), b.anonCleanup)
  }

  function Snoc<T>(s: seq<T>, x: T): seq<T> {
    s + [x]
  }

  /** Stopping this sweeper stops this job's timer, if it has one. */
  predicate OwnsItsInterval(s: Sweeper, live: seq<Option<Job>>) {
    s.handle.Scheduled? ==> s.handle.id < |live| && live[s.handle.id] == Some(s.job)
  }

  // ----- what a boot asks of the scheduler -----

  /** One sweep as it is made: for which job, and whether it may have an interval. */
  datatype Request = Request(armed: bool, job: Job)

  function Wanted(w: Wiring): seq<Request> {
    var armed := w.nodeRole != Replica;
    var first := Snoc([], Request(armed, Retention));
    var second := if w.canRefund then Snoc(first, Request(armed && w.autoRefund, ServiceRefunds)) else first;
    var third := Snoc(second, Request(armed, GrowthReaper));
    var fourth := if w.hasForwardLedger then Snoc(third, Request(armed, ForwardLedgerPrune)) else third;
    Snoc(Snoc(fourth, Request(armed, RecoveryPrune)), Request(armed, AnonCleanup))
  }

  function OnlyIf(armed: bool, job: Job): seq<Option<Job>> {
    if armed then [Some(job)] else []
  }

  /** The intervals these requests add. */
  function Added(reqs: seq<Request>): seq<Option<Job>> {
    if reqs == [] then [] else Added(Front(reqs)) + OnlyIf(Last(reqs).armed, Last(reqs).job)
  }

  /** The sweepers they are answered with, when `n` intervals were there before. */
  function Handed(n: nat, reqs: seq<Request>): seq<Sweeper> {
    if reqs == [] then [] else
      Handed(n, Front(reqs))
      + [Sweeper(Last(reqs).job, if Last(reqs).armed then Scheduled(n + |Added(Front(reqs))|) else NotScheduled)]
  }

  /** The position of a job in the order the sweeps are made. */
  function Rank(j: Job): nat {
    match j
    case Retention => 0 case ServiceRefunds => 1 case GrowthReaper => 2
    case ForwardLedgerPrune => 3 case RecoveryPrune => 4 case AnonCleanup => 5
    case OutboxDrain => 6 case ReplicaPull => 7
  }

  ghost predicate Rising(reqs: seq<Request>) {
    forall i, k :: 0 <= i < k < |reqs| ==> Rank(reqs[i].job) < Rank(reqs[k].job)
  }

  lemma RisingSnoc(reqs: seq<Request>, r: Request)
    requires Rising(reqs) && (reqs != [] ==> Rank(Last(reqs).job) < Rank(r.job))
    ensures Rising(Snoc(reqs, r)) && Last(Snoc(reqs, r)) == r
  {
  }

  lemma WantedInOrder(w: Wiring)
    ensures Rising(Wanted(w))
  {
    var armed := w.nodeRole != Replica;
    var first := Snoc([], Request(armed, Retention));
    RisingSnoc([], Request(armed, Retention));
    RisingSnoc(first, Request(armed && w.autoRefund, ServiceRefunds));
    var second := if w.canRefund then Snoc(first, Request(armed && w.autoRefund, ServiceRefunds)) else first;
    RisingSnoc(second, Request(armed, GrowthReaper));
    var third := Snoc(second, Request(armed, GrowthReaper));
    RisingSnoc(third, Request(armed, ForwardLedgerPrune));
    var fourth := if w.hasForwardLedger then Snoc(third, Request(armed, ForwardLedgerPrune)) else third;
    RisingSnoc(fourth, Request(armed, RecoveryPrune));
    RisingSnoc(Snoc(fourth, Request(armed, RecoveryPrune)), Request(armed, AnonCleanup));
  }

  lemma InSnoc<T>(s: seq<T>, x: T, y: T)
    ensures y in Snoc(s, x) <==> y in s || y == x
  {
  }

  /** Of the requests made, those allowed an interval are ArmedBy's. */
  lemma WantedIff(w: Wiring, j: Job)
    ensures Request(true, j) in Wanted(w) <==> j in ArmedBy(w)
  {
    var armed, r := w.nodeRole != Replica, Request(true, j);
    var first := Snoc([], Request(armed, Retention));
    InSnoc([], Request(armed, Retention), r);
    InSnoc(first, Request(armed && w.autoRefund, ServiceRefunds), r);
    var second := if w.canRefund then Snoc(first, Request(armed && w.autoRefund, ServiceRefunds)) else first;
    InSnoc(second, Request(armed, GrowthReaper), r);
    var third := Snoc(second, Request(armed, GrowthReaper));
    InSnoc(third, Request(armed, ForwardLedgerPrune), r);
    var fourth := if w.hasForwardLedger then Snoc(third, Request(armed, ForwardLedgerPrune)) else third;
    InSnoc(fourth, Request(armed, RecoveryPrune), r);
    InSnoc(Snoc(fourth, Request(armed, RecoveryPrune)), Request(armed, AnonCleanup), r);
  }

  /** No job has two intervals. */
  ghost predicate Unique(live: seq<Option<Job>>) {
    forall i, k :: 0 <= i < k < |live| && live[i].Some? ==> live[i] != live[k]
  }

  lemma {:induction false} AddedIff(reqs: seq<Request>, j: Job)
    ensures Some(j) in Added(reqs) <==> Request(true, j) in reqs
  {
    if reqs != [] {
      AddedIff(Front(reqs), j);
      FrontThenLast(reqs);
    }
  }

  lemma {:induction false} AddedIsUnique(reqs: seq<Request>)
    requires Rising(reqs)
    ensures Unique(Added(reqs)) && forall i :: 0 <= i < |Added(reqs)| ==> Added(reqs)[i].Some?
  {
    if reqs != [] {
      AddedIsUnique(Front(reqs));
      AddedIff(Front(reqs), Last(reqs).job);
    }
  }

  /** What is added is ArmedBy, each job once. */
  lemma LaunchedIsArmedBy(w: Wiring)
    ensures forall j :: Some(j) in Added(Wanted(w)) <==> j in ArmedBy(w)
    ensures Unique(Added(Wanted(w)))
  {
    WantedInOrder(w);
    AddedIsUnique(Wanted(w));
    forall j ensures Some(j) in Added(Wanted(w)) <==> j in ArmedBy(w) {
      AddedIff(Wanted(w), j);
      WantedIff(w, j);
    }
  }

  lemma {:induction false} HandedOwn(live: seq<Option<Job>>, reqs: seq<Request>)
    ensures |Handed(|live|, reqs)| == |reqs|
    ensures forall k :: 0 <= k < |reqs| ==> OwnsItsInterval(Handed(|live|, reqs)[k], live + Added(reqs))
    ensures forall k :: 0 <= k < |reqs| ==> Handed(|live|, reqs)[k].job == reqs[k].job && (Handed(|live|, reqs)[k].handle.Scheduled? <==> reqs[k].armed)
  {
    if reqs != [] {
      HandedOwn(live, Front(reqs));
      assert live + Added(reqs) == live + Added(Front(reqs)) + OnlyIf(Last(reqs).armed, Last(reqs).job);
    }
  }

  lemma {:induction false} HandedIds(live: seq<Option<Job>>, reqs: seq<Request>, id: nat)
    ensures (exists s :: s in Handed(|live|, reqs) && s.handle == Scheduled(id)) <==> |live| <= id < |live + Added(reqs)|
  {
    if reqs != [] {
      var ss := Handed(|live|, reqs);
      HandedIds(live, Front(reqs), id);
      assert ss == Handed(|live|, Front(reqs)) + [Last(ss)];
      assert Last(ss) in ss;
    }
  }

  /** Each sweeper owns its own job's interval, and together they own exactly those from `from` on. */
  ghost predicate OwnFrom(ss: seq<Sweeper>, from: nat, live: seq<Option<Job>>) {
    && (forall s :: s in ss ==> OwnsItsInterval(s, live))
    && (forall id: nat :: (exists s :: s in ss && s.handle == Scheduled(id)) <==> from <= id < |live|)
  }

  lemma LaunchedOwn(live: seq<Option<Job>>, reqs: seq<Request>)
    ensures OwnFrom(Handed(|live|, reqs), |live|, live + Added(reqs))
  {
    HandedOwn(live, reqs);
    forall id: nat
      ensures (exists s :: s in Handed(|live|, reqs) && s.handle == Scheduled(id)) <==> |live| <= id < |live + Added(reqs)|
    {
      HandedIds(live, reqs, id);
    }
  }

  // ----- stopping -----

  /** `stop` of each sweeper in turn. */
  function Cleared(live: seq<Option<Job>>, ss: seq<Sweeper>): (r: seq<Option<Job>>)
    ensures |r| == |live|
  {
    if ss == [] then live else
      var rest := Cleared(live, Front(ss));
      if Last(ss).handle.Scheduled? && Last(ss).handle.id < |live| then rest[Last(ss).handle.id := None] else rest
  }

  lemma {:induction false} ClearedAt(live: seq<Option<Job>>, ss: seq<Sweeper>, i: nat)
    requires i < |live|
    ensures Cleared(live, ss)[i] == if exists s :: s in ss && s.handle == Scheduled(i) then None else live[i]
  {
    if ss != [] {
      ClearedAt(live, Front(ss), i);
      FrontThenLast(ss);
      assert Last(ss) in ss;
    }
  }

  ghost function ArmedIn(live: seq<Option<Job>>): set<Job> {
    set j: Job | Some(j) in live
  }

  ghost function JobsOf(ss: seq<Sweeper>): set<Job> {
    set s | s in ss :: s.job
  }

  /** In any order, and stopped anywhere on the way: stopping sweepers that own their intervals takes
      exactly their jobs from the armed ones. */
  lemma StoppingDisarms(live: seq<Option<Job>>, ss: seq<Sweeper>)
    requires Unique(live)
    requires forall s :: s in ss ==> OwnsItsInterval(s, live) && (s.handle.Scheduled? || Some(s.job) !in live)
    ensures ArmedIn(Cleared(live, ss)) == ArmedIn(live) - JobsOf(ss)
  {
    var left := Cleared(live, ss);
    forall s, i | s in ss && 0 <= i < |left| ensures left[i] != Some(s.job) {
      ClearedAt(live, ss, i);
      if live[i] == Some(s.job) {
        assert s.handle == Scheduled(i);
      }
    }
    forall j: Job ensures Some(j) in left <==> Some(j) in live && j !in JobsOf(ss) {
      if Some(j) in left {
        var i :| 0 <= i < |left| && left[i] == Some(j);
        ClearedAt(live, ss, i);
        assert live[i] == Some(j);
      }
      if Some(j) in live && j !in JobsOf(ss) {
        var i :| 0 <= i < |live| && live[i] == Some(j);
        ClearedAt(live, ss, i);
        assert left[i] == Some(j);
      }
    }
  }

  /** A whole boot undone: what was running before is untouched, and no new interval is left. */
  lemma StopUndoesStart(live: seq<Option<Job>>, reqs: seq<Request>)
    ensures Cleared(live + Added(reqs), Handed(|live|, reqs)) == live + seq(|Added(reqs)|, _ => None)
  {
    var all, ss := live + Added(reqs), Handed(|live|, reqs);
    forall i | 0 <= i < |all| ensures Cleared(all, ss)[i] == (live + seq(|Added(reqs)|, _ => None))[i] {
      HandedIds(live, reqs, i);
      ClearedAt(all, ss, i);
    }
  }

  /** setInterval / clearInterval. A handle is an index into `live`; a cleared interval stays as None. */
  class IntervalHost {
    var live: seq<Option<Job>>

    constructor ()
      ensures live == []
    {
      live := [];
    }

    method SetInterval(job: Job) returns (id: nat)
      modifies this
      ensures id == |old(live)| && live == old(live) + [Some(job)]
    {
      id := |live|;
      live := live + [Some(job)];
    }

    method ClearInterval(id: nat)
      requires id < |live|
      modifies this
      ensures live == old(live)[id := None]
    {
      live := live[id := None];
    }

    /** The gate: one decision for every sweep. On a replica nothing is scheduled. */
    method SetGated(armed: bool, job: Job) returns (s: Sweeper)
      modifies this
      ensures s == Sweeper(job, if armed then Scheduled(|old(live)|) else NotScheduled)
      ensures live == old(live) + OnlyIf(armed, job)
    {
      if armed {
        var id := SetInterval(job);
        return Sweeper(job, Scheduled(id));
      }
      return Sweeper(job, NotScheduled);
    }

    /** A sweep's `stop`: its own interval and no other. */
    method Stop(s: Sweeper)
      requires s.handle.Scheduled? ==> s.handle.id < |live|
      modifies this
      ensures live == if s.handle.Scheduled? then old(live)[s.handle.id := None] else old(live)
    {
      if s.handle.Scheduled? {
        ClearInterval(s.handle.id);
      }
    }
  }

  /** One more sweep, made behind the gate. */
  method Make(host: IntervalHost, armed: bool, job: Job, ghost live: seq<Option<Job>>, ghost reqs: seq<Request>)
    returns (s: Sweeper, ghost reqs': seq<Request>)
    requires host.live == live + Added(reqs)
    modifies host
    ensures reqs' == Snoc(reqs, Request(armed, job))
    ensures host.live == live + Added(reqs') && s.job == job && Handed(|live|, reqs') == Snoc(Handed(|live|, reqs), s)
  {
    reqs' := Snoc(reqs, Request(armed, job));
    assert Front(reqs') == reqs;
    s := host.SetGated(armed, job);
  }

  /** Exactly the sweeps of this boot are armed, after whatever was running before; and the returned
      object can stop exactly those intervals: none outlives its stop, no stop reaches another timer. */
  method StartBackgroundSweeps(w: Wiring, host: IntervalHost) returns (b: BackgroundSweeps)
    modifies host
    ensures host.live == old(host.live) + Added(Wanted(w)) && Sweepers(b) == Handed(|old(host.live)|, Wanted(w))
    ensures b.retention.job == Retention && b.growthReaper.job == GrowthReaper
    ensures b.recoveryPrune.job == RecoveryPrune && b.anonCleanup.job == AnonCleanup
    ensures if w.canRefund then b.serviceRefunds.Some? && b.serviceRefunds.value.job == ServiceRefunds else b.serviceRefunds.None?
    ensures if w.hasForwardLedger then b.forwardLedgerPrune.Some? && b.forwardLedgerPrune.value.job == ForwardLedgerPrune
            else b.forwardLedgerPrune.None?
    ensures OwnFrom(Sweepers(b), |old(host.live)|, host.live)
  {
    var armed := w.nodeRole != Replica;
    ghost var live, reqs := host.live, [];
    var retention, serviceRefunds, growthReaper, forwardLedgerPrune, recoveryPrune, anonCleanup;
    retention, reqs := Make(host, armed, Retention, live, reqs);
    serviceRefunds := None;
    if w.canRefund {
      // The switch: disabled, the sweeper exists but arms no interval.
      var s;
      s, reqs := Make(host, armed && w.autoRefund, ServiceRefunds, live, reqs);
      serviceRefunds := Some(s);
    }
    growthReaper, reqs := Make(host, armed, GrowthReaper, live, reqs);
    forwardLedgerPrune := None;
    if w.hasForwardLedger {
      var s;
      s, reqs := Make(host, armed, ForwardLedgerPrune, live, reqs);
      forwardLedgerPrune := Some(s);
    }
    recoveryPrune, reqs := Make(host, armed, RecoveryPrune, live, reqs);
    anonCleanup, reqs := Make(host, armed, AnonCleanup, live, reqs);
    b := BackgroundSweeps(retention, serviceRefunds, growthReaper, forwardLedgerPrune, recoveryPrune, anonCleanup);
    assert reqs == Wanted(w);
    LaunchedOwn(live, reqs);
  }

  /** The close stops them one after another. */
  method StopAll(ss: seq<Sweeper>, host: IntervalHost)
    requires forall s :: s in ss && s.handle.Scheduled? ==> s.handle.id < |host.live|
    modifies host
    ensures host.live == Cleared(old(host.live), ss)
  {
    var i := 0;
    while i < |ss|
      invariant 0 <= i <= |ss| && host.live == Cleared(old(host.live), ss[..i])
    {
      assert Front(ss[..i + 1]) == ss[..i] && ss[i] in ss;
      host.Stop(ss[i]);
      i := i + 1;
    }
    assert ss[..i] == ss;
  }

  /** A boot and its close: every interval the boot added is gone, every other one is as it was. */
  method StartThenStop(w: Wiring, host: IntervalHost)
    modifies host
    ensures host.live == old(host.live) + seq(|Added(Wanted(w))|, _ => None)
  {
    ghost var live := host.live;
    var b := StartBackgroundSweeps(w, host);
    assert forall s :: s in Sweepers(b) ==> OwnsItsInterval(s, host.live);
    StopUndoesStart(live, Wanted(w));
    StopAll(Sweepers(b), host);
  }

  // ----- the recovery prune tick: two deletes in one transaction -----

  datatype Tables = Tables(recoveryOps: map<string, int>, usageEffects: map<string, int>)

  /** What can go wrong in one tick. A failing statement may or may not already have rolled the
      transaction back inside SQLite. */
  datatype TickFault = NoFault | BeginFails | RecoveryOpsFails | UsageEffectsFails | CommitFails

  /** The shared connection, between and during transactions. */
  class Connection {
    var committed: Tables
    var working: Tables
    var inTransaction: bool

    constructor (t: Tables)
      ensures committed == t && !inTransaction
    {
      committed, working, inTransaction := t, t, false;
    }

    method Begin()
      requires !inTransaction
      modifies this
      ensures inTransaction && working == committed == old(committed)
    {
      working := committed;
      inTransaction := true;
    }

    method Commit()
      requires inTransaction
      modifies this
      ensures !inTransaction && committed == old(working)
    {
      committed := working;
      inTransaction := false;
    }

    /** Throws when there is no transaction left to roll back. */
    method Rollback() returns (threw: bool)
      modifies this
      ensures !inTransaction && committed == old(committed)
      ensures threw <==> !old(inTransaction)
    {
      threw := !inTransaction;
      inTransaction := false;
    }

    /** One tick over the rows each prune would delete. Both deletes happen or neither does, no
        transaction is left open, and only a failing BEGIN (outside the try block) escapes. */
    method RecoveryTick(doomedOps: set<string>, doomedEffects: set<string>, fault: TickFault, autoRollback: bool)
      returns (escaped: bool, logged: bool)
      requires !inTransaction
      modifies this
      ensures !inTransaction
      ensures committed == if fault == NoFault
                           then Tables(old(committed).recoveryOps - doomedOps, old(committed).usageEffects - doomedEffects)
                           else old(committed)
      ensures escaped <==> fault == BeginFails
      ensures logged <==> fault != NoFault && fault != BeginFails
    {
      escaped, logged := false, false;
      if fault == BeginFails {
        escaped := true;
        return;
      }
      Begin();
      var failed := fault == RecoveryOpsFails;
      if !failed {
        working := working.(recoveryOps := working.recoveryOps - doomedOps);
        failed := fault == UsageEffectsFails;
      }
      if !failed {
        working := working.(usageEffects := working.usageEffects - doomedEffects);
        failed := fault == CommitFails;
      }
      if !failed {
        Commit();
      } else {
        if autoRollback {
          inTransaction := false;
        }
        var _ := Rollback();
        logged := true;
      }
    }
  }
}
