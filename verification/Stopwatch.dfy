/** The clock under the timers.  Times are reals; every read of the system clock is a parameter,
    required only not to go back. */
module Stopwatches {

  datatype Op = WasReset | WasStopped | WasStarted | WasTriggered | WasRead

  /** What has been done to a stopwatch, and when. */
  datatype History = Born(triggered: bool, at: real) | Then(before: History, op: Op, at: real)

  predicate Ordered(h: History) {
    h.Then? ==> Ordered(h.before) && h.before.at <= h.at
  }

  /** The trigger is set by setTrigger() and taken away by start(), or by the next getTime(). */
  predicate Armed(h: History) {
    match h
    case Born(triggered, _) => triggered
    case Then(before, op, _) =>
      match op
      case WasTriggered => true
      case WasStarted => false
      case WasRead => false
      case _ => Armed(before)
  }

  predicate Running(h: History) {
    match h
    case Born(triggered, _) => !triggered
    case Then(before, op, _) =>
      match op
      case WasStarted => true
      case WasStopped => false
      case WasTriggered => false
      case WasRead => Running(before) || Armed(before)
      case _ => Running(before)
  }

  /** The time spent running since the last reset, up to the last thing done. */
  function Ran(h: History): real
    decreases h, 0
  {
    match h
    case Born(_, _) => 0.0
    case Then(before, op, at) => if op == WasReset then 0.0 else RanUntil(before, at)
  }

  function RanUntil(h: History, now: real): real
    decreases h, 1
  {
    if Running(h) then Ran(h) + (now - h.at) else Ran(h)
  }

  /** A set trigger means a stopped clock. */
  lemma {:induction false} ArmedIsStopped(h: History)
    ensures Armed(h) ==> !Running(h)
  {
    if h.Then? {
      ArmedIsStopped(h.before);
    }
  }

  /** No stopwatch reports less than nothing, or more than its age. */
  lemma {:induction false} RanBounded(h: History, now: real)
    requires Ordered(h) && h.at <= now
    ensures 0.0 <= RanUntil(h, now) <= now - BornAt(h)
  {
    if h.Then? {
      RanBounded(h.before, h.at);
    }
  }

  function BornAt(h: History): real {
    if h.Born? then h.at else BornAt(h.before)
  }

  /** What each call makes of the time that is reported from then on: a reset forgets what has run, starting and a read of
      a triggered stopwatch let it run on, stopping and triggering keep what has run. */
  lemma EachCall(h: History, op: Op, at: real, now: real)
    requires Ordered(Then(h, op, at)) && at <= now
    ensures
      var before, after := RanUntil(h, at), RanUntil(Then(h, op, at), now);
      match op
      case WasReset => after == if Running(h) then now - at else 0.0
      case WasStopped => after == before
      case WasTriggered => after == before
      case WasStarted => after == before + (now - at)
      case WasRead => after == if Armed(h) then before + (now - at) else RanUntil(h, now)
    ensures Armed(Then(h, op, at)) <==> op == WasTriggered || (Armed(h) && (op == WasReset || op == WasStopped))
  {
    ArmedIsStopped(h);
  }

  /** No time has passed while the stopwatch ran since it was last reset. */
  predicate NeverRan(h: History) {
    match h
    case Born(_, _) => true
    case Then(before, op, at) => op == WasReset || (NeverRan(before) && (Running(before) ==> before.at == at))
  }

  /** A triggered stopwatch reports zero exactly if it has not run since it was last reset. */
  lemma {:induction false} TriggeredReportsZero(h: History, now: real)
    requires Ordered(h) && Armed(h)
    ensures RanUntil(h, now) == 0.0 <==> NeverRan(h)
  {
    ArmedIsStopped(h);
    RanNothing(h);
  }

  lemma {:induction false} RanNothing(h: History)
    requires Ordered(h)
    ensures Ran(h) == 0.0 <==> NeverRan(h)
    ensures Ran(h) >= 0.0
  {
    if h.Then? {
      RanNothing(h.before);
    }
  }

  /** A stopwatch that runs for a second and is then triggered reports that second. */
  lemma TriggeredReportsSecond(now: real)
    ensures var h := Then(Born(false, 0.0), WasTriggered, 1.0); Ordered(h) && Armed(h) && RanUntil(h, now) == 1.0
  {
    assert RanUntil(Born(false, 0.0), 1.0) == 1.0;
  }

  class Stopwatch {
    var mark: real
    var triggered: bool
    var stopped: bool
    ghost var history: History

    ghost predicate Valid()
      reads this
    {
      && Ordered(history)
      && triggered == Armed(history)
      && stopped == !Running(history)
      && mark == if stopped then Ran(history) else history.at - Ran(history)
    }

    constructor (triggered: bool, now: real)
      ensures Valid() && history == Born(triggered, now)
    {
      this.triggered := triggered;
      stopped := triggered;
      mark := if triggered then 0.0 else now;
      history := Born(triggered, now);
    }

    method Reset(now: real) returns (dt: real)
      requires Valid() && history.at <= now
      modifies this
      ensures Valid() && history == Then(old(history), WasReset, now)
      ensures dt == RanUntil(old(history), now)
      ensures stopped == old(stopped) && triggered == old(triggered)
      ensures !stopped ==> dt == now - old(mark) && mark == now
    {
      history := Then(history, WasReset, now);
      if stopped {
        dt := mark;
        mark := 0.0;
      } else {
        var t := now;
        dt := t - mark;
        mark := t;
      }
    }

    method Stop(now: real)
      requires Valid() && history.at <= now
      modifies this
      ensures Valid() && history == Then(old(history), WasStopped, now)
    {
      history := Then(history, WasStopped, now);
      if stopped {
        return;
      }
      mark := now - mark;
      stopped := true;
    }

    method Start(now: real)
      requires Valid() && history.at <= now
      modifies this
      ensures Valid() && history == Then(old(history), WasStarted, now)
    {
      history := Then(history, WasStarted, now);
      triggered := false;
      if !stopped {
        return;
      }
      mark := now - mark;
      stopped := false;
    }

    method SetTrigger(now: real)
      requires Valid() && history.at <= now
      modifies this
      ensures Valid() && history == Then(old(history), WasTriggered, now)
    {
      ghost var before := history;
      Stop(now);
      triggered := true;
      history := Then(before, WasTriggered, now);
    }

    /** The getTime() that lets a triggered clock start. */
    method GetTime(now: real) returns (t: real)
      requires Valid() && history.at <= now
      modifies this
      ensures Valid() && history == Then(old(history), WasRead, now)
      ensures t == RanUntil(old(history), now)
      ensures !old(stopped) ==> t == now - mark && mark == old(mark) && !stopped && !triggered
    {
      ghost var before := history;
      ArmedIsStopped(before);
      if triggered {
        var dt := mark;
        Start(now);
        t := dt;
      } else if stopped {
        t := mark;
      } else {
        t := now - mark;
      }
      history := Then(before, WasRead, now);
    }

    /** The getTime() that changes nothing. */
    method Peek(now: real) returns (t: real)
      requires Valid() && history.at <= now
      ensures t == RanUntil(history, now)
    {
      t := if stopped then mark else now - mark;
    }
  }
}
