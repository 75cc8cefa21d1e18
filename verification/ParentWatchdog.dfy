/** installParentWatchdog: stdin as the desktop's lifetime pipe. */
module ParentWatchdog {

  datatype PipeEvent = End | Error | Closed

  /** The pipe's three one-shot listeners, the latch behind them, and how often parentGone ran. */
  class Watchdog {
    var listening: set<PipeEvent>
    var fired: bool
    var goneCalls: nat

    ghost predicate Valid()
      reads this
    {
      && goneCalls == (if fired then 1 else 0)
      && (!fired ==> listening == {} || listening == {End, Error, Closed})
    }

    /** `alreadyOver`: the pipe had ended or been destroyed before the listeners were attached. */
    constructor (enabled: bool, alreadyOver: bool)
      ensures Valid()
      ensures goneCalls == if enabled && alreadyOver then 1 else 0
      ensures listening == if enabled then {End, Error, Closed} else {}
    {
      listening, fired, goneCalls := {}, false, 0;
      new;
      if enabled {
        listening := {End, Error, Closed};
        if alreadyOver {
          Gone();
        }
      }
    }

    method Gone()
      modifies this`fired, this`goneCalls
      ensures fired && goneCalls == if old(fired) then old(goneCalls) else old(goneCalls) + 1
    {
      if fired {
        return;
      }
      fired := true;
      goneCalls := goneCalls + 1;
    }

    method OnPipe(e: PipeEvent)
      requires Valid()
      modifies this
      ensures Valid() && listening == old(listening) - {e}
      ensures goneCalls == if e in old(listening) && old(goneCalls) == 0 then 1 else old(goneCalls)
    {
      if e in listening {
        listening := listening - {e};
        Gone();
      }
    }

    /** A whole life of the pipe. */
    method OnPipeAll(es: seq<PipeEvent>)
      requires Valid()
      modifies this
      ensures goneCalls == if old(goneCalls) == 1 || (old(listening) != {} && es != []) then 1 else 0
    {
      var i := 0;
      while i < |es|
        invariant 0 <= i <= |es| && Valid()
        invariant goneCalls == if old(goneCalls) == 1 || (old(listening) != {} && i > 0) then 1 else 0
        invariant goneCalls == 0 ==> listening == old(listening)
        invariant old(listening) == {} ==> listening == {}
      {
        assert es[i] in {End, Error, Closed} by {
          match es[i] { case End => case Error => case Closed => }
        }
        OnPipe(es[i]);
        i := i + 1;
      }
    }
  }

  /** parentGone runs exactly once if the watchdog is enabled and the pipe is, or ever gets, over; it
      never runs when the watchdog is disabled. */
  method Watch(enabled: bool, alreadyOver: bool, es: seq<PipeEvent>) returns (goneCalls: nat)
    ensures goneCalls == if enabled && (alreadyOver || es != []) then 1 else 0
  {
    var w := new Watchdog(enabled, alreadyOver);
    w.OnPipeAll(es);
    goneCalls := w.goneCalls;
  }
}
