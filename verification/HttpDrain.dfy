/** closeHttpServerWithGrace: the close callback against the grace timer. */
module HttpDrain {
  import opened Prelude

  const SHUTDOWN_GRACE_MS := 5_000

  /** What the drain does to the outside, in the order it does it. */
  datatype Action = StopAccepting | CloseIdle | WarnStillOpen | ForceAll | ResolvePromise

  /** The server's callback may come at any time, also at the deadline itself, or never. Time passes
      without limit; a timer the clock passes is served on the way. */
  datatype Event = CloseCallback | GraceTimer | Elapse(ms: nat)

  /** `settledAt`: the reading at which the promise resolved. */
  datatype State = State(settledAt: Option<nat>, timerArmed: bool, now: nat, due: nat, actions: seq<Action>)

  function Start(graceMs: nat): State {
    State(None, true, 0, graceMs, [StopAccepting, CloseIdle])
  }

  predicate Enabled(s: State, e: Event) {
    e.GraceTimer? ==> s.timerArmed && s.now >= s.due
  }

  function Finish(s: State): State {
    if s.settledAt.Some? then s
    else s.(settledAt := Some(s.now), timerArmed := false, actions := s.actions + [ResolvePromise])
  }

  /** The timer's callback; a fired timeout is spent. */
  function Fire(s: State): State {
    if s.settledAt.Some? then s.(timerArmed := false)
    else Finish(s.(timerArmed := false, actions := s.actions + [WarnStillOpen, ForceAll]))
  }

  function Next(s: State, e: Event): State {
    match e
    case CloseCallback => Finish(s)
    case GraceTimer => Fire(s)
    case Elapse(ms) =>
      var s' := if s.timerArmed && s.now + ms > s.due then Fire(s.(now := s.due)) else s;
      s'.(now := s.now + ms)
  }

  class Drain {
    var settledAt: Option<nat>
    var timerArmed: bool
    var now: nat
    const due: nat
    var actions: seq<Action>

    constructor (graceMs: nat)
      ensures View() == Start(graceMs)
    {
      settledAt, now, due := None, 0, graceMs;
      actions := [StopAccepting, CloseIdle];
      timerArmed := true;
    }

    function View(): State
      reads this
    {
      State(settledAt, timerArmed, now, due, actions)
    }

    method FinishOnce()
      modifies this
      ensures View() == Finish(old(View()))
    {
      if settledAt.Some? {
        return;
      }
      settledAt := Some(now);
      timerArmed := false;
      actions := actions + [ResolvePromise];
    }

    method OnClosed()
      modifies this
      ensures View() == Next(old(View()), CloseCallback)
    {
      FinishOnce();
    }

    method OnGrace()
      modifies this
      ensures View() == Fire(old(View()))
    {
      timerArmed := false;
      if settledAt.Some? {
        return;
      }
      actions := actions + [WarnStillOpen];
      actions := actions + [ForceAll];
      assert actions == old(actions) + [WarnStillOpen, ForceAll];
      FinishOnce();
    }

    method OnElapse(ms: nat)
      modifies this
      ensures View() == Next(old(View()), Elapse(ms))
    {
      var target := now + ms;
      if timerArmed && target > due {
        now := due;
        OnGrace();
      }
      now := target;
    }

    /** A whole drain. */
    method Drive(es: seq<Event>)
      requires Legal(View(), es)
      modifies this
      ensures View() == Run(old(View()), es)
    {
      var i := 0;
      assert es[0..] == es;
      while i < |es|
        invariant 0 <= i <= |es|
        invariant Legal(View(), es[i..]) && Run(View(), es[i..]) == Run(old(View()), es)
      {
        assert es[i..][0] == es[i] && es[i..][1..] == es[i + 1..];
        match es[i] {
          case CloseCallback => OnClosed();
          case GraceTimer => OnGrace();
          case Elapse(ms) => OnElapse(ms);
        }
        i := i + 1;
      }
    }
  }

  function Run(s: State, es: seq<Event>): State
    decreases es
  {
    if es == [] then s else Run(Next(s, es[0]), es[1..])
  }

  predicate Legal(s: State, es: seq<Event>)
    decreases es
  {
    es != [] ==> Enabled(s, es[0]) && Legal(Next(s, es[0]), es[1..])
  }

  /** Which of the two came first, with `left` milliseconds to the deadline, and how long it took. */
  datatype Settler = ByCallback(after: nat) | ByDeadline(after: nat)

  function FirstToSettle(es: seq<Event>, left: nat): (first: Option<Settler>)
    ensures first.Some? ==> first.value.after <= left && (first.value.ByDeadline? ==> first.value.after == left)
  {
    if es == [] then None
    else match es[0]
      case CloseCallback => Some(ByCallback(0))
      case GraceTimer => Some(ByDeadline(left))
      case Elapse(ms) =>
        if ms > left then Some(ByDeadline(left))
        else match FirstToSettle(es[1..], left - ms)
          case None => None
          case Some(first) => Some(first.(after := first.after + ms))
  }

  function Consequence(first: Option<Settler>): seq<Action> {
    match first
    case None => []
    case Some(ByCallback(_)) => [ResolvePromise]
    case Some(ByDeadline(_)) => [WarnStillOpen, ForceAll, ResolvePromise]
  }

  lemma {:induction false} SettledIsFinal(s: State, es: seq<Event>)
    requires s.settledAt.Some? && !s.timerArmed && Legal(s, es)
    ensures var r := Run(s, es); r.settledAt == s.settledAt && !r.timerArmed && r.actions == s.actions
    decreases es
  {
    if es != [] {
      SettledIsFinal(Next(s, es[0]), es[1..]);
    }
  }

  lemma {:induction false} RunFromUnsettled(s: State, es: seq<Event>)
    requires s.settledAt.None? && s.timerArmed && s.now <= s.due && Legal(s, es)
    ensures var r, first := Run(s, es), FirstToSettle(es, s.due - s.now);
            && r.actions == s.actions + Consequence(first)
            && r.settledAt == (if first.None? then None else Some(s.now + first.value.after))
            && r.timerArmed == first.None?
            && (first.None? ==> r.now <= s.due)
    decreases es
  {
    if es == [] {
      assert s.actions + [] == s.actions;
    } else {
      var s' := Next(s, es[0]);
      if s'.settledAt.None? {
        RunFromUnsettled(s', es[1..]);
      } else {
        SettledIsFinal(s', es[1..]);
        assert s.actions + [WarnStillOpen, ForceAll] + [ResolvePromise] == s.actions + [WarnStillOpen, ForceAll, ResolvePromise];
      }
    }
  }

  /** Every interleaving: nothing but accepting and idle connections is touched until the callback or
      the deadline, whichever comes first; connections are forced iff the deadline came first, after the
      warning and before the one resolution; a settled drain leaves no timer behind. */
  lemma DrainOutcome(graceMs: nat, es: seq<Event>)
    requires Legal(Start(graceMs), es)
    ensures var s, first := Run(Start(graceMs), es), FirstToSettle(es, graceMs);
            && s.actions == [StopAccepting, CloseIdle] + Consequence(first)
            && s.settledAt == (if first.None? then None else Some(first.value.after))
            && (ForceAll in s.actions <==> first.Some? && first.value.ByDeadline?)
            && (s.timerArmed <==> s.settledAt.None?)
  {
    RunFromUnsettled(Start(graceMs), es);
  }

  function Times(actions: seq<Action>, a: Action): nat {
    multiset(actions)[a]
  }

  /** Once the clock is past the deadline the promise has resolved exactly once, no later than the
      deadline, whatever the server did. */
  lemma ResolvesOnceInTime(graceMs: nat, es: seq<Event>)
    requires Legal(Start(graceMs), es)
    ensures var s := Run(Start(graceMs), es);
            && Times(s.actions, ResolvePromise) <= 1
            && (s.settledAt.Some? <==> Times(s.actions, ResolvePromise) == 1)
            && (s.settledAt.Some? ==> s.settledAt.value <= graceMs)
            && (s.now > graceMs ==> s.settledAt.Some?)
  {
    RunFromUnsettled(Start(graceMs), es);
    assert [StopAccepting, CloseIdle] + [] == [StopAccepting, CloseIdle];
  }

  /** The program's own variables, over a whole drain of the shipped length. */
  method DrainServer(es: seq<Event>) returns (d: Drain)
    requires Legal(Start(5_000), es)
    ensures fresh(d) && d.View() == Run(Start(5_000), es)
    ensures d.now > 5_000 ==> d.settledAt.Some? && d.settledAt.value <= 5_000 && !d.timerArmed
  {
    d := new Drain(SHUTDOWN_GRACE_MS);
    d.Drive(es);
    DrainOutcome(SHUTDOWN_GRACE_MS, es);
    ResolvesOnceInTime(SHUTDOWN_GRACE_MS, es);
  }
}
