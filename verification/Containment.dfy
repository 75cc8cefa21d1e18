/** wrapSocketHandlers: the patched on/off/emit of one socket, against the emitter it replaces. */
module Containment {
  import opened Prelude
  import opened Reasons
  import opened RateGates
  import opened HandlerReports

  /** Function identity: two listeners are the same iff their identities are. */
  datatype Listener = Listener(identity: nat)

  /** What sits in the underlying emitter's list: a bare function, or the wrapper (a fresh function
      each time) that the patched `on` built around one. */
  datatype Slot = Raw(listener: Listener) | Wrapped(id: nat, listener: Listener)

  /** EventEmitter.removeListener: scan from the end, drop the most recently added instance. */
  function RemoveLast<T(==)>(s: seq<T>, x: T): seq<T> {
    if s == [] then []
    else if Last(s) == x then Front(s)
    else RemoveLast(Front(s), x) + [Last(s)]
  }

  function Originals(slots: seq<Slot>): (r: seq<Listener>)
    ensures |r| == |slots|
    ensures forall k :: 0 <= k < |r| ==> r[k] == slots[k].listener
  {
    seq(|slots|, k requires 0 <= k < |slots| => slots[k].listener)
  }

  // ----- one socket, patched -----

  /** `slots` is the underlying emitter; `wrappedBy` the translation the patch keeps;
      `made` counts the wrappers built so far, so that each is a new identity. */
  datatype Patched = Patched(
    slots: map<string, seq<Slot>>,
    wrappedBy: map<string, map<Listener, Slot>>,
    made: nat)

  function Translation(p: Patched, event: string): map<Listener, Slot> {
    if event in p.wrappedBy then p.wrappedBy[event] else map[]
  }

  function PatchedOn(p: Patched, event: string, listener: Listener): Patched {
    var wrapped := Wrapped(p.made, listener);
    Patched(p.slots[event := At(p.slots, event) + [wrapped]],
            p.wrappedBy[event := Translation(p, event)[listener := wrapped]],
            p.made + 1)
  }

  function PatchedOff(p: Patched, event: string, listener: Listener): Patched {
    var forEvent := Translation(p, event);
    if listener in forEvent then
      p.(slots := p.slots[event := RemoveLast(At(p.slots, event), forEvent[listener])],
         wrappedBy := p.wrappedBy[event := forEvent - {listener}])
    else
      p.(slots := p.slots[event := RemoveLast(At(p.slots, event), Raw(listener))])
  }

  /** How one invocation of a listener ends. */
  datatype Outcome = Returns | Throws(reason: Reason) | Rejects(reason: Reason)

  class ContainedSocket {
    var slots: map<string, seq<Slot>>
    var wrappedBy: map<string, map<Listener, Slot>>
    var made: nat

    /** Patching happens before any handler is registered on the connection. */
    constructor ()
      ensures View() == Patched(map[], map[], 0)
    {
      slots, wrappedBy, made := map[], map[], 0;
    }

    function View(): Patched
      reads this
    {
      Patched(slots, wrappedBy, made)
    }

    method On(event: string, listener: Listener)
      modifies this
      ensures View() == PatchedOn(old(View()), event, listener)
    {
      var wrapped := Wrapped(made, listener);
      made := made + 1;
      if event !in wrappedBy {
        wrappedBy := wrappedBy[event := map[]];
      }
      wrappedBy := wrappedBy[event := wrappedBy[event][listener := wrapped]];
      slots := slots[event := At(slots, event) + [wrapped]];
    }

    /** Both `off` and `removeListener`: one translation serves the two names. */
    method Off(event: string, listener: Listener)
      modifies this
      ensures View() == PatchedOff(old(View()), event, listener)
    {
      if event in wrappedBy && listener in wrappedBy[event] {
        var wrapped := wrappedBy[event][listener];
        wrappedBy := wrappedBy[event := wrappedBy[event] - {listener}];
        slots := slots[event := RemoveLast(At(slots, event), wrapped)];
      } else {
        slots := slots[event := RemoveLast(At(slots, event), Raw(listener))];
      }
    }

    /** One emission over a snapshot of the list; `clock` is what the reporter's gate reads at each entry.
        A wrapped listener runs inside the try block, and its throw is handed to the reporter; its rejection
        will be, when the promise settles. Nothing guards a bare listener. */
    method Emit(event: string, behave: Listener -> Outcome, clock: nat -> int, reporter: Reporter)
      returns (ran: seq<Listener>, rejected: seq<Listener>, unguarded: seq<Listener>, escaped: bool)
      requires reporter.Valid()
      modifies reporter, reporter.gates.Values
      ensures reporter.Valid() && fresh(reporter.gates.Values - old(reporter.gates.Values))
      ensures var all, g := At(slots, event), GateFor(old(reporter.View()), event);
              && (escaped <==> SomeEscape(all, behave, clock, g))
              && |ran| <= |all| && ran == Originals(all[..|ran|])
              && GateFor(reporter.View(), event) == GateBefore(all, behave, clock, g, |ran|)
              && rejected == RejectedAmong(all[..|ran|], behave, true) && unguarded == RejectedAmong(all[..|ran|], behave, false)
              && (!escaped ==> |ran| == |all|)
              && (escaped ==> 0 < |ran| && Escapes(all, behave, clock, g, |ran| - 1))
      ensures forall e :: e != event ==> GateFor(reporter.View(), e) == GateFor(old(reporter.View()), e)
    {
      var snapshot := At(slots, event);
      ghost var g := GateFor(reporter.View(), event);
      ghost var before := reporter.View();
      ran, rejected, unguarded, escaped := [], [], [], false;
      var i := 0;
      while i < |snapshot|
        invariant 0 <= i <= |snapshot| && reporter.Valid() && fresh(reporter.gates.Values - old(reporter.gates.Values))
        invariant ran == Originals(snapshot[..i])
        invariant rejected == RejectedAmong(snapshot[..i], behave, true) && unguarded == RejectedAmong(snapshot[..i], behave, false)
        invariant forall k :: 0 <= k < i ==> !Escapes(snapshot, behave, clock, g, k)
        invariant GateFor(reporter.View(), event) == GateBefore(snapshot, behave, clock, g, i)
        invariant forall e :: e != event ==> GateFor(reporter.View(), e) == GateFor(before, e)
      {
        var slot := snapshot[i];
        OneMore(snapshot, i);
        GateAfterOne(snapshot, behave, clock, g, i);
        ran := ran + [slot.listener];
        match behave(slot.listener) {
          case Returns =>
          case Throws(reason) =>
            if slot.Raw? {
              assert Escapes(snapshot, behave, clock, g, i);
              escaped := true;
              return;
            }
            var line, bad := reporter.Report(Failure("", event, clock(i), reason));
            if bad {
              assert Escapes(snapshot, behave, clock, g, i);
              escaped := true;
              return;
            }
          case Rejects(_) =>
            if slot.Wrapped? {
              rejected := rejected + [slot.listener];
            } else {
              unguarded := unguarded + [slot.listener];
            }
        }
        i := i + 1;
      }
      assert snapshot[..i] == snapshot;
    }

    /** Any sequence of calls on the socket. */
    method Drive(ops: seq<Op>)
      requires View() == Patched(map[], map[], 0)
      modifies this
      ensures View() == PatchedRun(ops)
    {
      var i := 0;
      while i < |ops|
        invariant 0 <= i <= |ops| && View() == PatchedRun(ops[..i])
      {
        assert Front(ops[..i + 1]) == ops[..i];
        match ops[i] {
          case On(event, listener) => On(event, listener);
          case Off(event, listener) => Off(event, listener);
        }
        i := i + 1;
      }
      assert ops[..i] == ops;
    }
  }

  // ----- which failures get past the wrapper -----

  /** The readings at which throws of these entries' wrapped listeners reach the event's gate. */
  function ThrowTimes(slots: seq<Slot>, behave: Listener -> Outcome, clock: nat -> int): seq<int> {
    if slots == [] then []
    else
      var outcome := behave(Last(slots).listener);
      ThrowTimes(Front(slots), behave, clock)
      + if Last(slots).Wrapped? && outcome.Throws? && outcome.reason.Printed? then [clock(|slots| - 1)] else []
  }

  /** The entry is wrapped, and its listener throws something that can be converted: that reaches the gate. */
  predicate Logs(slot: Slot, behave: Listener -> Outcome) {
    slot.Wrapped? && behave(slot.listener).Throws? && behave(slot.listener).reason.Printed?
  }

  function LogsAt(slots: seq<Slot>, behave: Listener -> Outcome): nat -> bool {
    (k: nat) => k < |slots| && Logs(slots[k], behave)
  }

  /** Exactly those entries ask the gate, each once, in order, at the reading it is entered with. */
  lemma {:induction false} ThrowTimesByIndex(slots: seq<Slot>, n: nat, behave: Listener -> Outcome, clock: nat -> int)
    requires n <= |slots|
    ensures var (times, at) := (ThrowTimes(slots[..n], behave, clock), Indices(n, LogsAt(slots, behave)));
            |at| == |times| && forall i :: 0 <= i < |at| ==> times[i] == clock(at[i])
  {
    if n > 0 {
      ThrowTimesByIndex(slots, n - 1, behave, clock);
      OneMore(slots, n - 1);
    }
  }

  /** The event's gate when entry k is about to run, if nothing escaped before it. */
  function GateBefore(slots: seq<Slot>, behave: Listener -> Outcome, clock: nat -> int, g: Gate, k: nat): Gate
    requires k <= |slots|
  {
    After(g, ThrowTimes(slots[..k], behave, clock))
  }

  /** Entry k's listener throws something the reporter cannot deal with at that moment. */
  predicate BadThrow(slots: seq<Slot>, behave: Listener -> Outcome, clock: nat -> int, g: Gate, k: nat)
    requires k < |slots|
  {
    var outcome := behave(slots[k].listener);
    outcome.Throws? && BadReport(outcome.reason, GateBefore(slots, behave, clock, g, k), clock(k))
  }

  /** The emitter itself sees the failure: later listeners do not run, and the caller of `emit`, which
      has no handler, makes it an uncaught exception. */
  predicate Escapes(slots: seq<Slot>, behave: Listener -> Outcome, clock: nat -> int, g: Gate, k: nat)
    requires k < |slots|
  {
    BadThrow(slots, behave, clock, g, k) || (slots[k].Raw? && behave(slots[k].listener).Throws?)
  }

  predicate SomeEscape(slots: seq<Slot>, behave: Listener -> Outcome, clock: nat -> int, g: Gate) {
    exists k :: 0 <= k < |slots| && Escapes(slots, behave, clock, g, k)
  }

  predicate SomeBadThrow(slots: seq<Slot>, behave: Listener -> Outcome, clock: nat -> int, g: Gate) {
    exists k :: 0 <= k < |slots| && BadThrow(slots, behave, clock, g, k)
  }

  lemma OneMore(slots: seq<Slot>, i: nat)
    requires i < |slots|
    ensures Front(slots[..i + 1]) == slots[..i] && Last(slots[..i + 1]) == slots[i]
    ensures Originals(slots[..i + 1]) == Originals(slots[..i]) + [slots[i].listener]
  {
  }

  lemma GateAfterOne(slots: seq<Slot>, behave: Listener -> Outcome, clock: nat -> int, g: Gate, i: nat)
    requires i < |slots|
    ensures var outcome, before := behave(slots[i].listener), GateBefore(slots, behave, clock, g, i);
            GateBefore(slots, behave, clock, g, i + 1) ==
              if slots[i].Wrapped? && outcome.Throws? && outcome.reason.Printed? then Acquire(before, clock(i)).0 else before
  {
    OneMore(slots, i);
    var times := ThrowTimes(slots[..i], behave, clock);
    AnswersSnoc(g, times, clock(i));
    assert times + [] == times;
  }

  /** The entry's listener rejects, and is wrapped or bare as asked. */
  predicate Rejecting(slot: Slot, behave: Listener -> Outcome, wrapped: bool) {
    behave(slot.listener).Rejects? && slot.Wrapped? == wrapped
  }

  ghost function RejectedAmong(slots: seq<Slot>, behave: Listener -> Outcome, wrapped: bool): seq<Listener> {
    if slots == [] then []
    else RejectedAmong(Front(slots), behave, wrapped) + if Rejecting(Last(slots), behave, wrapped) then [Last(slots).listener] else []
  }

  function RejectingAt(slots: seq<Slot>, behave: Listener -> Outcome, wrapped: bool): nat -> bool {
    (k: nat) => k < |slots| && Rejecting(slots[k], behave, wrapped)
  }

  /** These are the listeners of exactly the rejecting entries, in order: the i-th is that of entry at[i]. */
  lemma {:induction false} RejectedByIndex(slots: seq<Slot>, n: nat, behave: Listener -> Outcome, wrapped: bool)
    requires n <= |slots|
    ensures var (rejected, at) := (RejectedAmong(slots[..n], behave, wrapped), Indices(n, RejectingAt(slots, behave, wrapped)));
            |at| == |rejected| && forall i :: 0 <= i < |at| ==> rejected[i] == slots[at[i]].listener
  {
    if n > 0 {
      RejectedByIndex(slots, n - 1, behave, wrapped);
      OneMore(slots, n - 1);
    }
  }

  /** A later report to the event's gate: a listener of the emission whose promise settles, or some other
      failure of that event on any socket. */
  datatype Settlement = Own(listener: Listener, at: int) | Elsewhere(reason: Reason, at: int)

  function ReasonOf(st: Settlement, behave: Listener -> Outcome): Reason {
    match st
    case Elsewhere(reason, _) => reason
    case Own(l, _) => if behave(l).Rejects? then behave(l).reason else PLAIN
  }

  function LaterTimes(later: seq<Settlement>, behave: Listener -> Outcome): seq<int> {
    if later == [] then []
    else LaterTimes(Front(later), behave) + if ReasonOf(Last(later), behave).Printed? then [Last(later).at] else []
  }

  function AsksAt(later: seq<Settlement>, behave: Listener -> Outcome): nat -> bool {
    (k: nat) => k < |later| && ReasonOf(later[k], behave).Printed?
  }

  /** Every later report that can be converted asks the gate, once, in order. */
  lemma {:induction false} LaterTimesByIndex(later: seq<Settlement>, n: nat, behave: Listener -> Outcome)
    requires n <= |later|
    ensures var (times, at) := (LaterTimes(later[..n], behave), Indices(n, AsksAt(later, behave)));
            |at| == |times| && forall i :: 0 <= i < |at| ==> times[i] == later[at[i]].at
  {
    if n > 0 {
      LaterTimesByIndex(later, n - 1, behave);
      assert Front(later[..n]) == later[..n - 1];
    }
  }

  /** A rejection of the emission meets a reporter that cannot deal with it at that moment: the reporter
      throws inside the rejection callback, and the process sees an unhandled rejection. */
  predicate BadRejection(later: seq<Settlement>, behave: Listener -> Outcome, g: Gate, i: nat)
    requires i < |later|
  {
    later[i].Own? && BadReport(ReasonOf(later[i], behave), After(g, LaterTimes(later[..i], behave)), later[i].at)
  }

  predicate SomeBadRejection(later: seq<Settlement>, behave: Listener -> Outcome, g: Gate) {
    exists i :: 0 <= i < |later| && BadRejection(later, behave, g, i)
  }

  function Live(ops: seq<Op>, e: string): seq<Slot> {
    At(PatchedRun(ops).slots, e)
  }

  lemma LiveAreWrapped(ops: seq<Op>, e: string)
    ensures forall k :: 0 <= k < |Live(ops, e)| ==> Live(ops, e)[k].Wrapped?
  {
    RunKeepsInv(ops);
    assert ChannelOk(Live(ops, e), Translation(PatchedRun(ops), e), PatchedRun(ops).made);
  }

  /** Whatever was registered and removed since the patch, and whatever state the event's gate is in: an
      emission escapes iff some live listener throws a reason that cannot be converted, or one whose line
      cannot be written while the gate is open. */
  lemma EscapeIff(ops: seq<Op>, e: string, behave: Listener -> Outcome, clock: nat -> int, g: Gate)
    ensures SomeEscape(Live(ops, e), behave, clock, g) <==> SomeBadThrow(Live(ops, e), behave, clock, g)
  {
    LiveAreWrapped(ops, e);
    if k :| 0 <= k < |Live(ops, e)| && Escapes(Live(ops, e), behave, clock, g, k) {
      assert BadThrow(Live(ops, e), behave, clock, g, k);
    }
    if k :| 0 <= k < |Live(ops, e)| && BadThrow(Live(ops, e), behave, clock, g, k) {
      assert Escapes(Live(ops, e), behave, clock, g, k);
    }
  }

  /** In terms of the calls alone: a throw the reporter cannot deal with is one that cannot be converted, or
      one whose line cannot be written although no line was granted within the last window. */
  lemma BadThrowIff(slots: seq<Slot>, behave: Listener -> Outcome, clock: nat -> int, g: Gate, k: nat)
    requires k < |slots|
    ensures var outcome, last := behave(slots[k].listener), LastGrant(g, ThrowTimes(slots[..k], behave, clock));
            BadThrow(slots, behave, clock, g, k) <==>
              outcome.Throws? && (outcome.reason.Unprintable?
                || (!(outcome.reason.messageLogs && outcome.reason.stackLogs) && (last.None? || clock(k) - last.value >= g.windowMs)))
  {
    OpenIff(g, ThrowTimes(slots[..k], behave, clock), clock(k));
  }

  /** The same of a rejection when it settles. */
  lemma BadRejectionIff(later: seq<Settlement>, behave: Listener -> Outcome, g: Gate, i: nat)
    requires i < |later|
    ensures var reason, last := ReasonOf(later[i], behave), LastGrant(g, LaterTimes(later[..i], behave));
            BadRejection(later, behave, g, i) <==>
              later[i].Own? && (reason.Unprintable?
                || (!(reason.messageLogs && reason.stackLogs) && (last.None? || later[i].at - last.value >= g.windowMs)))
  {
    OpenIff(g, LaterTimes(later[..i], behave), later[i].at);
  }

  /** One reason, both fates: an Error whose message cannot be logged does no harm while the gate is closed
      and escapes, or becomes an unhandled rejection, once it is open. A reason that cannot be converted
      harms either way. */
  lemma GateDecides(l: Listener, g: Gate, at: int)
    requires g.windowMs == HANDLER_FAILURE_LOG_WINDOW_MS
    ensures var slots, later, bad := [Wrapped(0, l)], [Own(l, at)], Printed(false, true);
            && (BadThrow(slots, _ => Throws(bad), _ => at, g, 0) <==> Open(g, at))
            && (BadRejection(later, _ => Rejects(bad), g, 0) <==> Open(g, at))
            && BadThrow(slots, _ => Throws(Unprintable), _ => at, g, 0)
            && BadRejection(later, _ => Rejects(Unprintable), g, 0)
  {
    assert [Wrapped(0, l)][..0] == [] && [Own(l, at)][..0] == [];
  }

  /** Both gates occur: a fresh one is open, one that has just granted a line is not. */
  lemma BothGatesOccur(at: int)
    ensures var first := Fresh(HANDLER_FAILURE_LOG_WINDOW_MS); Open(first, at) && !Open(After(first, [at]), at)
  {
    assert [at][1..] == [];
  }

  /** The emission's own listeners among the later reports. */
  function Owners(later: seq<Settlement>): seq<Listener> {
    if later == [] then []
    else Owners(Front(later)) + if Last(later).Own? then [Last(later).listener] else []
  }

  /** Each of the rejections is reported once, in whatever order and amid whatever else. */
  predicate Settles(later: seq<Settlement>, rejected: seq<Listener>) {
    multiset(Owners(later)) == multiset(rejected)
  }

  lemma {:induction false} OwnersIff(later: seq<Settlement>, l: Listener)
    ensures l in Owners(later) <==> exists i :: 0 <= i < |later| && later[i].Own? && later[i].listener == l
  {
    if later != [] {
      OwnersIff(Front(later), l);
      assert forall i :: 0 <= i < |later| - 1 ==> later[i] == Front(later)[i];
    }
  }

  /** The rejections handed on are those of the listeners that ran. */
  ghost predicate HandsOn(rejected: seq<Listener>, ran: seq<Listener>, behave: Listener -> Outcome) {
    forall l :: l in rejected <==> l in ran && behave(l).Rejects?
  }

  /** After any operations nobody's rejection goes unreported: every rejecting listener that ran is handed
      on, and none is left to nobody. */
  lemma NoRejectionIsLost(ops: seq<Op>, e: string, n: nat, behave: Listener -> Outcome)
    requires n <= |Live(ops, e)|
    ensures RejectedAmong(Live(ops, e)[..n], behave, false) == []
    ensures HandsOn(RejectedAmong(Live(ops, e)[..n], behave, true), Originals(Live(ops, e)[..n]), behave)
  {
    var slots := Live(ops, e)[..n];
    LiveAreWrapped(ops, e);
    RejectedBareIs(slots, behave);
    forall l ensures l in RejectedAmong(slots, behave, true) <==> l in Originals(slots) && behave(l).Rejects? {
      RejectedWrappedIff(slots, behave, l);
    }
  }

  lemma {:induction false} RejectedBareIs(slots: seq<Slot>, behave: Listener -> Outcome)
    requires forall k :: 0 <= k < |slots| ==> slots[k].Wrapped?
    ensures RejectedAmong(slots, behave, false) == []
  {
    if slots != [] {
      RejectedBareIs(Front(slots), behave);
    }
  }

  lemma {:induction false} RejectedWrappedIff(slots: seq<Slot>, behave: Listener -> Outcome, l: Listener)
    requires forall k :: 0 <= k < |slots| ==> slots[k].Wrapped?
    ensures l in RejectedAmong(slots, behave, true) <==> l in Originals(slots) && behave(l).Rejects?
  {
    if slots != [] {
      RejectedWrappedIff(Front(slots), behave, l);
      assert Originals(slots) == Originals(Front(slots)) + [Last(slots).listener];
    }
  }

  /** A rejection that cannot be converted harms the process whenever it settles. */
  lemma UnprintableRejectionHarms(ops: seq<Op>, e: string, n: nat, behave: Listener -> Outcome, later: seq<Settlement>, g: Gate)
    requires n <= |Live(ops, e)| && Settles(later, RejectedAmong(Live(ops, e)[..n], behave, true))
    ensures SomeUnprintableRejection(Originals(Live(ops, e)[..n]), behave) ==> SomeBadRejection(later, behave, g)
  {
    var ran, rejected := Originals(Live(ops, e)[..n]), RejectedAmong(Live(ops, e)[..n], behave, true);
    if SomeUnprintableRejection(ran, behave) {
      var l :| l in ran && behave(l) == Rejects(Unprintable);
      NoRejectionIsLost(ops, e, n, behave);
      assert l in multiset(rejected) && l in multiset(Owners(later));
      OwnersIff(later, l);
      var i :| 0 <= i < |later| && later[i].Own? && later[i].listener == l;
      assert BadRejection(later, behave, g, i);
    }
  }

  ghost predicate SomeUnprintableRejection(ran: seq<Listener>, behave: Listener -> Outcome) {
    exists l :: l in ran && behave(l) == Rejects(Unprintable)
  }

  /** A socket through any operations and one emission: it escapes iff some live listener throws what the
      reporter cannot deal with then; every rejecting listener that ran is handed on; if it does not escape,
      every live listener has run, in order; and if no `off` was dishonoured, those are the listeners the
      plain emitter would have run. */
  method EmitAfter(ops: seq<Op>, event: string, behave: Listener -> Outcome, clock: nat -> int, reporter: Reporter)
    returns (ran: seq<Listener>, rejected: seq<Listener>, escaped: bool)
    requires reporter.Valid()
    modifies reporter, reporter.gates.Values
    ensures reporter.Valid() && fresh(reporter.gates.Values - old(reporter.gates.Values))
    ensures var slots, g := Live(ops, event), GateFor(old(reporter.View()), event);
            && (escaped <==> SomeBadThrow(slots, behave, clock, g))
            && |ran| <= |slots| && ran == Originals(slots[..|ran|]) && (!escaped ==> |ran| == |slots|)
            && rejected == RejectedAmong(slots[..|ran|], behave, true) && HandsOn(rejected, ran, behave)
            && GateFor(reporter.View(), event) == GateBefore(slots, behave, clock, g, |ran|)
    ensures AllHonourable(ops) ==> Originals(Live(ops, event)) == At(PlainRun(ops), event)
  {
    var socket := new ContainedSocket();
    socket.Drive(ops);
    EscapeIff(ops, event, behave, clock, GateFor(reporter.View(), event));
    var unguarded;
    ran, rejected, unguarded, escaped := socket.Emit(event, behave, clock, reporter);
    NoRejectionIsLost(ops, event, |ran|, behave);
    if AllHonourable(ops) {
      SimulationHolds(ops);
    }
  }

  /** And the reports of its rejections as they settle, in any order and amid any others. The emission
      harms the process iff it escapes or one of its rejections meets a reporter that cannot deal with it;
      an unconvertible rejection of a listener that ran always does. */
  method Contain(ops: seq<Op>, event: string, behave: Listener -> Outcome, clock: nat -> int,
                 settling: seq<Listener> -> seq<Settlement>, reporter: Reporter)
    returns (ran: seq<Listener>, rejected: seq<Listener>, harmed: bool)
    requires reporter.Valid() && forall r :: Settles(settling(r), r)
    modifies reporter, reporter.gates.Values
    ensures var slots, g := Live(ops, event), GateFor(old(reporter.View()), event);
            && |ran| <= |slots| && ran == Originals(slots[..|ran|]) && HandsOn(rejected, ran, behave)
            && (harmed <==> SomeBadThrow(slots, behave, clock, g)
                            || SomeBadRejection(settling(rejected), behave, GateBefore(slots, behave, clock, g, |ran|)))
            && (SomeUnprintableRejection(ran, behave) ==> harmed)
            && (!harmed ==> |ran| == |slots|)
  {
    var escaped;
    ran, rejected, escaped := EmitAfter(ops, event, behave, clock, reporter);
    var later := settling(rejected);
    ghost var g := GateFor(reporter.View(), event);
    var unhandled := Settle(event, behave, later, reporter);
    harmed := escaped || unhandled;
    UnprintableRejectionHarms(ops, event, |ran|, behave, later, g);
  }

  /** The reports that come later. */
  method Settle(event: string, behave: Listener -> Outcome, later: seq<Settlement>, reporter: Reporter) returns (unhandled: bool)
    requires reporter.Valid()
    modifies reporter, reporter.gates.Values
    ensures unhandled <==> SomeBadRejection(later, behave, GateFor(old(reporter.View()), event))
  {
    ghost var g := GateFor(reporter.View(), event);
    unhandled := false;
    var i := 0;
    while i < |later|
      invariant 0 <= i <= |later| && reporter.Valid() && fresh(reporter.gates.Values - old(reporter.gates.Values))
      invariant GateFor(reporter.View(), event) == After(g, LaterTimes(later[..i], behave))
      invariant unhandled <==> exists k :: 0 <= k < i && BadRejection(later, behave, g, k)
    {
      LaterAfterOne(later, behave, g, i);
      var line, bad := reporter.Report(Failure("", event, later[i].at, ReasonOf(later[i], behave)));
      if bad && later[i].Own? {
        assert BadRejection(later, behave, g, i);
        unhandled := true;
      }
      i := i + 1;
    }
  }

  lemma LaterAfterOne(later: seq<Settlement>, behave: Listener -> Outcome, g: Gate, i: nat)
    requires i < |later|
    ensures var before := After(g, LaterTimes(later[..i], behave));
            After(g, LaterTimes(later[..i + 1], behave)) ==
              if ReasonOf(later[i], behave).Printed? then Acquire(before, later[i].at).0 else before
  {
    var times := LaterTimes(later[..i], behave);
    assert Front(later[..i + 1]) == later[..i] && Last(later[..i + 1]) == later[i];
    AnswersSnoc(g, times, later[i].at);
    assert times + [] == times;
  }

  // ----- the unpatched emitter and the simulation -----

  type Plain = map<string, seq<Listener>>

  datatype Op = On(event: string, listener: Listener) | Off(event: string, listener: Listener)

  function PlainStep(r: Plain, op: Op): Plain {
    match op
    case On(e, l) => r[e := At(r, e) + [l]]
    case Off(e, l) => r[e := RemoveLast(At(r, e), l)]
  }

  function PatchedStep(p: Patched, op: Op): Patched {
    match op
    case On(e, l) => PatchedOn(p, e, l)
    case Off(e, l) => PatchedOff(p, e, l)
  }

  function PlainRun(ops: seq<Op>): Plain {
    if ops == [] then map[] else PlainStep(PlainRun(Front(ops)), Last(ops))
  }

  function PatchedRun(ops: seq<Op>): Patched {
    if ops == [] then Patched(map[], map[], 0) else PatchedStep(PatchedRun(Front(ops)), Last(ops))
  }

  /** Same listeners, same order, for every event. */
  ghost predicate Simulates(p: Patched, r: Plain) {
    forall e: string :: Originals(At(p.slots, e)) == At(r, e)
  }

  /** The caller's own bookkeeping: was the latest operation on this (event, listener) an `on`? */
  function Owned(ops: seq<Op>, e: string, l: Listener): bool {
    if ops == [] then false
    else if Last(ops).event == e && Last(ops).listener == l then Last(ops).On?
    else Owned(Front(ops), e, l)
  }

  /** An `off` the translation can honour: it undoes an `on` not yet taken back, or there is nothing
      registered for it to remove. */
  predicate Honourable(before: seq<Op>, op: Op) {
    op.Off? ==> Owned(before, op.event, op.listener) || op.listener !in At(PlainRun(before), op.event)
  }

  predicate AllHonourable(ops: seq<Op>) {
    ops != [] ==> AllHonourable(Front(ops)) && Honourable(Front(ops), Last(ops))
  }

  /** w is in the list and no later entry wraps l. */
  ghost predicate IsLastFor(slots: seq<Slot>, w: Slot, l: Listener) {
    exists k :: 0 <= k < |slots| && slots[k] == w && w.listener == l && NoneAfter(slots, k, l)
  }

  ghost predicate NoneAfter(slots: seq<Slot>, k: int, l: Listener)
    requires -1 <= k
  {
    forall j :: k < j < |slots| ==> slots[j].listener != l
  }

  ghost predicate Distinct(slots: seq<Slot>, made: nat) {
    && (forall k :: 0 <= k < |slots| ==> slots[k].Wrapped? && slots[k].id < made)
    && (forall j, k :: 0 <= j < k < |slots| ==> slots[j] != slots[k])
  }

  /** The invariant for one event: only wrappers, all distinct, and the translation of a listener is
      the last wrapper made for it. */
  ghost predicate ChannelOk(slots: seq<Slot>, forEvent: map<Listener, Slot>, made: nat) {
    && Distinct(slots, made)
    && (forall l :: l in forEvent ==> IsLastFor(slots, forEvent[l], l))
  }

  /** The invariant of the patch: every event's channel, and the translation holds exactly the
      registrations whose latest operation was an `on`. */
  ghost predicate Inv(p: Patched, ops: seq<Op>) {
    && (forall e: string :: ChannelOk(At(p.slots, e), Translation(p, e), p.made))
    && (forall e: string, l :: l in Translation(p, e) <==> Owned(ops, e, l))
  }

  lemma {:induction false} RemoveAbsent<T>(s: seq<T>, x: T)
    requires x !in s
    ensures RemoveLast(s, x) == s
  {
    if s != [] {
      FrontThenLast(s);
      RemoveAbsent(Front(s), x);
    }
  }

  /** Where the removed entry was: the rest keeps its order. */
  lemma {:induction false} RemovePresent<T>(s: seq<T>, x: T, k: nat)
    requires k < |s| && s[k] == x && forall j :: k < j < |s| ==> s[j] != x
    ensures RemoveLast(s, x) == s[..k] + s[k + 1..]
  {
    if k < |s| - 1 {
      RemovePresent(Front(s), x, k);
    }
  }

  lemma LastIndex<T>(s: seq<T>, x: T) returns (k: nat)
    requires x in s
    ensures k < |s| && s[k] == x && forall j :: k < j < |s| ==> s[j] != x
  {
    k := |s| - 1;
    while s[k] != x
      invariant 0 <= k < |s| && forall j :: k < j < |s| ==> s[j] != x
      decreases k
    {
      k := k - 1;
    }
  }

  lemma ChannelAfterOn(slots: seq<Slot>, forEvent: map<Listener, Slot>, made: nat, l: Listener)
    requires ChannelOk(slots, forEvent, made)
    ensures ChannelOk(slots + [Wrapped(made, l)], forEvent[l := Wrapped(made, l)], made + 1)
    ensures Originals(slots + [Wrapped(made, l)]) == Originals(slots) + [l]
  {
    var now := slots + [Wrapped(made, l)];
    var after := forEvent[l := Wrapped(made, l)];
    forall m | m in after ensures IsLastFor(now, after[m], m) {
      if m == l {
        assert now[|slots|] == after[m] && NoneAfter(now, |slots|, m);
      } else {
        var k :| 0 <= k < |slots| && slots[k] == forEvent[m] && NoneAfter(slots, k, m);
        assert now[k] == after[m] && NoneAfter(now, k, m);
      }
    }
  }

  /** Taking entry k out does not change which wrapper is the last one of another listener. */
  lemma LastForAfterRemoval(slots: seq<Slot>, k: nat, w: Slot, m: Listener)
    requires k < |slots| && slots[k].listener != m && IsLastFor(slots, w, m)
    ensures IsLastFor(slots[..k] + slots[k + 1..], w, m)
  {
    var i :| 0 <= i < |slots| && slots[i] == w && w.listener == m && NoneAfter(slots, i, m);
    var now := slots[..k] + slots[k + 1..];
    var i' := if i < k then i else i - 1;
    assert now[i'] == w;
    forall j | i' < j < |now| ensures now[j].listener != m {
      assert now[j] == slots[if j < k then j else j + 1];
    }
    assert NoneAfter(now, i', m);
  }

  lemma OriginalsAfterRemoval(slots: seq<Slot>, k: nat, l: Listener)
    requires k < |slots| && slots[k].listener == l && NoneAfter(slots, k, l)
    ensures Originals(slots[..k] + slots[k + 1..]) == RemoveLast(Originals(slots), l)
  {
    RemovePresent(Originals(slots), l, k);
    assert Originals(slots[..k] + slots[k + 1..]) == Originals(slots)[..k] + Originals(slots)[k + 1..];
  }

  lemma DistinctAfterRemoval(slots: seq<Slot>, k: nat, made: nat)
    requires k < |slots| && Distinct(slots, made)
    ensures Distinct(slots[..k] + slots[k + 1..], made)
  {
    var now := slots[..k] + slots[k + 1..];
    assert forall j :: 0 <= j < |now| ==> now[j] == slots[if j < k then j else j + 1];
  }

  /** Removing the translated wrapper removes, from the list of originals, the very entry the plain
      emitter would remove. */
  lemma ChannelAfterOff(slots: seq<Slot>, forEvent: map<Listener, Slot>, made: nat, l: Listener)
    requires ChannelOk(slots, forEvent, made) && l in forEvent
    ensures ChannelOk(RemoveLast(slots, forEvent[l]), forEvent - {l}, made)
    ensures Originals(RemoveLast(slots, forEvent[l])) == RemoveLast(Originals(slots), l)
  {
    assert IsLastFor(slots, forEvent[l], l);
    var k :| 0 <= k < |slots| && slots[k] == forEvent[l] && NoneAfter(slots, k, l);
    var now := slots[..k] + slots[k + 1..];
    RemovePresent(slots, forEvent[l], k) by {
      assert forall j :: k < j < |slots| ==> slots[j].listener != l;
    }
    OriginalsAfterRemoval(slots, k, l);
    DistinctAfterRemoval(slots, k, made);
    forall m | m in forEvent - {l} ensures IsLastFor(now, (forEvent - {l})[m], m) {
      assert IsLastFor(slots, forEvent[m], m);
      LastForAfterRemoval(slots, k, forEvent[m], m);
    }
  }

  /** One step, seen from one event: the invariant, and what happened to the originals there. */
  lemma StepAt(p: Patched, op: Op, e: string)
    requires forall e' :: ChannelOk(At(p.slots, e'), Translation(p, e'), p.made)
    ensures var q := PatchedStep(p, op);
            && ChannelOk(At(q.slots, e), Translation(q, e), q.made)
            && Originals(At(q.slots, e)) ==
               if op.event != e then Originals(At(p.slots, e))
               else if op.On? then Originals(At(p.slots, e)) + [op.listener]
               else if op.listener in Translation(p, e) then RemoveLast(Originals(At(p.slots, e)), op.listener)
               else Originals(At(p.slots, e))
  {
    var slots := At(p.slots, e);
    assert ChannelOk(slots, Translation(p, e), p.made);
    if op.event == e {
      if op.On? {
        ChannelAfterOn(slots, Translation(p, e), p.made, op.listener);
      } else if op.listener in Translation(p, e) {
        ChannelAfterOff(slots, Translation(p, e), p.made, op.listener);
      } else {
        RemoveAbsent(slots, Raw(op.listener));
      }
    }
  }

  lemma {:induction false} RunKeepsInv(ops: seq<Op>)
    ensures Inv(PatchedRun(ops), ops)
  {
    if ops != [] {
      RunKeepsInv(Front(ops));
      forall e ensures ChannelOk(At(PatchedRun(ops).slots, e), Translation(PatchedRun(ops), e), PatchedRun(ops).made) {
        StepAt(PatchedRun(Front(ops)), Last(ops), e);
      }
    }
  }

  /** The last step of a run, seen from one event, in terms of the caller's bookkeeping. */
  lemma LastStepAt(ops: seq<Op>, e: string)
    requires ops != []
    ensures var was, op := Originals(At(PatchedRun(Front(ops)).slots, e)), Last(ops);
            Originals(At(PatchedRun(ops).slots, e)) ==
              if op.event != e then was
              else if op.On? then was + [op.listener]
              else if Owned(Front(ops), e, op.listener) then RemoveLast(was, op.listener)
              else was
    ensures At(PlainRun(ops), e) ==
              if Last(ops).event != e then At(PlainRun(Front(ops)), e)
              else if Last(ops).On? then At(PlainRun(Front(ops)), e) + [Last(ops).listener]
              else RemoveLast(At(PlainRun(Front(ops)), e), Last(ops).listener)
  {
    RunKeepsInv(Front(ops));
    StepAt(PatchedRun(Front(ops)), Last(ops), e);
  }

  function Count(s: seq<Listener>, l: Listener): nat {
    multiset(s)[l]
  }

  lemma CountAfterRemoval(s: seq<Listener>, l: Listener, m: Listener)
    ensures Count(RemoveLast(s, l), m) == if l in s && m == l then Count(s, m) - 1 else Count(s, m)
  {
    if l in s {
      var k := LastIndex(s, l);
      RemovePresent(s, l, k);
      assert s == s[..k] + [l] + s[k + 1..];
    } else {
      RemoveAbsent(s, l);
    }
  }

  /** The patched list never holds fewer registrations than the plain one, an owned listener is live
      in both, and a surplus once present is there for good. */
  ghost predicate Surplus(ops: seq<Op>, e: string, l: Listener) {
    Count(Originals(At(PatchedRun(ops).slots, e)), l) > Count(At(PlainRun(ops), e), l)
  }

  lemma StepCounts(ops: seq<Op>, e: string, l: Listener)
    requires ops != []
    ensures var q, s := Originals(At(PatchedRun(ops).slots, e)), At(PlainRun(ops), e);
            var q0, s0 := Originals(At(PatchedRun(Front(ops)).slots, e)), At(PlainRun(Front(ops)), e);
            if Last(ops) == On(e, l) then Count(q, l) == Count(q0, l) + 1 && Count(s, l) == Count(s0, l) + 1
            else if Last(ops) == Off(e, l) then
              && Count(q, l) == (if Owned(Front(ops), e, l) && l in q0 then Count(q0, l) - 1 else Count(q0, l))
              && Count(s, l) == (if l in s0 then Count(s0, l) - 1 else Count(s0, l))
            else Count(q, l) == Count(q0, l) && Count(s, l) == Count(s0, l)
  {
    LastStepAt(ops, e);
    CountAfterRemoval(Originals(At(PatchedRun(Front(ops)).slots, e)), Last(ops).listener, l);
    CountAfterRemoval(At(PlainRun(Front(ops)), e), Last(ops).listener, l);
  }

  lemma {:induction false} OwnedIsLive(ops: seq<Op>, e: string, l: Listener)
    requires Owned(ops, e, l)
    ensures l in At(PlainRun(ops), e)
  {
    StepCounts(ops, e, l);
    if Last(ops) != On(e, l) {
      OwnedIsLive(Front(ops), e, l);
      assert Count(At(PlainRun(Front(ops)), e), l) > 0;
    }
  }

  lemma SurplusIsForever(ops: seq<Op>, e: string, l: Listener)
    requires ops != [] && Surplus(Front(ops), e, l)
    ensures Surplus(ops, e, l)
  {
    StepCounts(ops, e, l);
    if Owned(Front(ops), e, l) {
      OwnedIsLive(Front(ops), e, l);
    }
  }

  lemma DishonourMakesSurplus(ops: seq<Op>)
    requires ops != [] && !Honourable(Front(ops), Last(ops))
    requires Simulates(PatchedRun(Front(ops)), PlainRun(Front(ops)))
    ensures Surplus(ops, Last(ops).event, Last(ops).listener)
  {
    var e := Last(ops).event;
    StepCounts(ops, e, Last(ops).listener);
    assert Originals(At(PatchedRun(Front(ops)).slots, e)) == At(PlainRun(Front(ops)), e);
  }

  /** A run that was dishonoured anywhere has a surplus registration at the end. */
  lemma {:induction false} Leak(ops: seq<Op>) returns (e: string, l: Listener)
    requires !AllHonourable(ops)
    ensures Surplus(ops, e, l)
  {
    if AllHonourable(Front(ops)) {
      SimulationHolds(Front(ops));
      DishonourMakesSurplus(ops);
      e, l := Last(ops).event, Last(ops).listener;
    } else {
      e, l := Leak(Front(ops));
      SurplusIsForever(ops, e, l);
    }
  }

  lemma {:induction false} SimulationHolds(ops: seq<Op>)
    requires AllHonourable(ops)
    ensures Simulates(PatchedRun(ops), PlainRun(ops))
  {
    if ops != [] {
      SimulationHolds(Front(ops));
      forall e: string ensures Originals(At(PatchedRun(ops).slots, e)) == At(PlainRun(ops), e) {
        LastStepAt(ops, e);
        if Last(ops).Off? && Last(ops).listener !in At(PlainRun(Front(ops)), e) {
          RemoveAbsent(At(PlainRun(Front(ops)), e), Last(ops).listener);
        }
      }
    }
  }

  /** The patched socket and the plain emitter hold the same listeners in the same order after a run
      of on/off calls iff no `off` in it asked for a registration the translation had lost. */
  lemma SimulationIff(ops: seq<Op>)
    ensures Simulates(PatchedRun(ops), PlainRun(ops)) <==> AllHonourable(ops)
  {
    if AllHonourable(ops) {
      SimulationHolds(ops);
    } else {
      var e, l := Leak(ops);
      assert Originals(At(PatchedRun(ops).slots, e)) != At(PlainRun(ops), e);
    }
  }

  /** A listener is never live twice at once on one event. */
  predicate NeverTwice(ops: seq<Op>) {
    ops != [] ==>
      && NeverTwice(Front(ops))
      && (Last(ops).On? ==> Last(ops).listener !in At(PlainRun(Front(ops)), Last(ops).event))
  }

  lemma {:induction false} LiveIsOwned(ops: seq<Op>, e: string, l: Listener)
    requires NeverTwice(ops)
    ensures Count(At(PlainRun(ops), e), l) == if Owned(ops, e, l) then 1 else 0
  {
    if ops != [] {
      LiveIsOwned(Front(ops), e, l);
      StepCounts(ops, e, l);
    }
  }

  /** The discipline the callers of the repository keep is enough. */
  lemma {:induction false} NeverTwiceSuffices(ops: seq<Op>)
    requires NeverTwice(ops)
    ensures Simulates(PatchedRun(ops), PlainRun(ops))
  {
    NeverTwiceIsHonourable(ops);
    SimulationHolds(ops);
  }

  lemma {:induction false} NeverTwiceIsHonourable(ops: seq<Op>)
    requires NeverTwice(ops)
    ensures AllHonourable(ops)
  {
    if ops != [] {
      NeverTwiceIsHonourable(Front(ops));
      LiveIsOwned(Front(ops), Last(ops).event, Last(ops).listener);
    }
  }

  /** Registering one listener twice and removing it twice leaves it registered. */
  lemma DoubleRegistrationLeaks(e: string, l: Listener)
    ensures var ops := [On(e, l), On(e, l), Off(e, l), Off(e, l)];
            !Honourable(ops[..3], ops[3]) && Surplus(ops, e, l)
  {
    var ops := [On(e, l), On(e, l), Off(e, l), Off(e, l)];
    assert Front(ops) == ops[..3] && Front(ops[..3]) == ops[..2] && Front(ops[..2]) == ops[..1] && Front(ops[..1]) == [];
    StepCounts(ops[..1], e, l);
    StepCounts(ops[..2], e, l);
    StepCounts(ops[..3], e, l);
    assert Count(At(PlainRun(ops[..3]), e), l) == 1;
    assert !Owned(ops[..3], e, l);
    StepCounts(ops, e, l);
  }
}
