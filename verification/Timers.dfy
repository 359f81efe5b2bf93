/** The timers of the event queue: a heap of remaining times, counted down in place by the time that has
    gone by since the last check.  Absolute deadlines are the reference. */
module Timers {
  import opened Options
  import opened PriorityQueues
  import opened Stopwatches

  // an EventQueueTimer pointer
  type TimerID = nat

  datatype Target = Object(pointer: nat) | TheTimer(timer: TimerID)

  /** A timer without its remaining time, which is the key of its queue entry. */
  datatype TimerInfo = TimerInfo(timer: TimerID, timeout: real, target: Target, oneShot: bool)

  type Timer = Entry<TimerInfo>

  datatype TimerEvent = TimerEvent(target: Target, timer: TimerID, count: int)

  /** What is true of a timer in absolute time: when it was created, when it was last set off or created,
      the time lost between two reads of the clock until then, and the repeats reported so far. */
  datatype Ledger = Ledger(born: real, armed: real, lostBefore: real, reported: int)

  // ---------- Timers and their ids ----------

  predicate DistinctTimers(c: seq<Timer>) {
    forall i, j :: 0 <= i < j < |c| ==> c[i].value.timer != c[j].value.timer
  }

  lemma TwoPlaces(c: seq<Timer>, e: Timer, i: nat, j: nat)
    requires i < j < |c| && c[i] == e == c[j]
    ensures multiset(c)[e] >= 2
  {
    assert c == c[..i] + [e] + c[i + 1..j] + [e] + c[j + 1..];
  }

  lemma OnePlace(c: seq<Timer>, e: Timer)
    requires DistinctTimers(c)
    ensures multiset(c)[e] <= 1
  {
    if e in multiset(c) {
      var i :| 0 <= i < |c| && c[i] == e;
      assert c == c[..i] + [e] + c[i + 1..];
      assert e !in c[..i] && e !in c[i + 1..];
      assert multiset(c) == multiset(c[..i]) + multiset{e} + multiset(c[i + 1..]);
    }
  }

  /** Any order of distinct timers is one of distinct timers. */
  lemma DistinctPermutation(a: seq<Timer>, b: seq<Timer>)
    requires IsPermutation(a, b) && DistinctTimers(a)
    ensures DistinctTimers(b)
  {
    forall i, j | 0 <= i < j < |b| ensures b[i].value.timer != b[j].value.timer {
      SamePlaces(a, b, b[i]);
      SamePlaces(a, b, b[j]);
      if b[i] == b[j] {
        OnePlace(a, b[i]);
        TwoPlaces(b, b[i], i, j);
      }
    }
  }

  // ---------- Repeat counts ----------

  lemma TimesMonotone(a: real, b: real, t: real)
    requires t > 0.0
    ensures a <= b ==> a * t <= b * t
    ensures a < b ==> a * t < b * t
  {
    assert (b - a) * t == b * t - a * t;
    assert a < b ==> (b - a) * t > 0.0;
  }

  /** A late timer reports how often it would have gone off: at least once, and no more than fits the delay. */
  lemma CountBounds(timeout: real, remaining: real, count: int)
    requires timeout > 0.0 && remaining <= 0.0
    requires count == ((timeout - remaining) / timeout).Floor
    ensures count >= 1
    ensures count as real * timeout <= timeout - remaining
    ensures (timeout - remaining) / timeout < count as real + 1.0
  {
    var q := (timeout - remaining) / timeout;
    assert q * timeout == timeout - remaining;
    assert q >= 1.0 by {
      if q < 1.0 {
        TimesMonotone(q, 1.0, timeout);
      }
    }
    TimesMonotone(count as real, q, timeout);
  }

  // ---------- Stored times and deadlines ----------

  /** What the absolute reference knows: the ledger, and the clock time lost between two reads in all checks so far. */
  datatype Book = Book(ledger: map<TimerID, Ledger>, lost: real)

  /** The instant that a timer is set to go off at. */
  ghost function Deadline(book: Book, e: Timer): real
    requires e.value.timer in book.ledger
  {
    book.ledger[e.value.timer].armed + e.value.timeout
  }

  /** The clock time lost to a timer since it was last set. */
  ghost function Lag(book: Book, e: Timer): real
    requires e.value.timer in book.ledger
  {
    book.lost - book.ledger[e.value.timer].lostBefore
  }

  /** A queued timer: its stored time, seen from the mark of the clock, is its deadline put off by its lag. */
  ghost predicate OnTime(book: Book, e: Timer, mark: real, now: real) {
    && e.value.timeout > 0.0 && e.value.timer in book.ledger
    && e.key + mark == Deadline(book, e) + Lag(book, e)
    && 0.0 <= Lag(book, e)
    && var l := book.ledger[e.value.timer];
       l.born <= l.armed <= now && l.reported as real * e.value.timeout <= l.armed - l.born
  }

  ghost predicate AllOnTime(book: Book, c: seq<Timer>, mark: real, now: real) {
    DistinctTimers(c) && forall i :: 0 <= i < |c| ==> OnTime(book, c[i], mark, now)
  }

  lemma OnTimePermutation(book: Book, a: seq<Timer>, b: seq<Timer>, mark: real, now: real)
    requires AllOnTime(book, a, mark, now) && IsPermutation(a, b)
    ensures AllOnTime(book, b, mark, now)
  {
    DistinctPermutation(a, b);
    forall i | 0 <= i < |b| ensures OnTime(book, b[i], mark, now) {
      SamePlaces(a, b, b[i]);
    }
  }

  /** Later, and with another timer in the book, what was on time still is. */
  lemma OnTimeLater(book: Book, c: seq<Timer>, e: Timer, mark: real, now: real, l: Ledger, later: real)
    requires AllOnTime(book, c, mark, now) && now <= later
    requires forall i :: 0 <= i < |c| ==> c[i].value.timer != e.value.timer
    requires OnTime(Book(book.ledger[e.value.timer := l], book.lost), e, mark, later)
    ensures AllOnTime(Book(book.ledger[e.value.timer := l], book.lost), c + [e], mark, later)
  {
    forall i | 0 <= i < |c| ensures OnTime(Book(book.ledger[e.value.timer := l], book.lost), c[i], mark, later) {
      assert OnTime(book, c[i], mark, now);
    }
  }

  /** Counting down by the time between the mark and the first read, and moving the mark to the second read,
      keeps every timer on time, with the time between the reads added to its lag. */
  lemma OnTimeShifted(book: Book, c: seq<Timer>, mark: real, now: real, first: real, second: real)
    requires AllOnTime(book, c, mark, now) && now <= first <= second
    ensures AllOnTime(book.(lost := book.lost + (second - first)), Shifted(c, first - mark), second, second)
  {
    var r := Shifted(c, first - mark);
    forall i | 0 <= i < |r| ensures OnTime(book.(lost := book.lost + (second - first)), r[i], second, second) {
      assert OnTime(book, c[i], mark, now);
    }
  }

  /** The timer should go off by `now`: its deadline has passed, and the clock time lost to it as well. */
  ghost predicate Due(book: Book, e: Timer, now: real) {
    e.value.timer in book.ledger && Deadline(book, e) + Lag(book, e) <= now
  }

  /** Being due shows in the remaining time. */
  lemma DueShows(book: Book, c: seq<Timer>, mark: real, before: real, now: real)
    requires AllOnTime(book, c, mark, before)
    ensures forall i :: 0 <= i < |c| ==> (Due(book, c[i], now) <==> c[i].key - (now - mark) <= 0.0)
  {
    forall i | 0 <= i < |c| ensures Due(book, c[i], now) <==> c[i].key - (now - mark) <= 0.0 {
      assert OnTime(book, c[i], mark, before);
    }
  }

  /** A timer that is due has passed its deadline, so none goes off early; with no lag the two are the same. */
  lemma NeverEarly(book: Book, c: seq<Timer>, mark: real, before: real, i: nat, now: real)
    requires AllOnTime(book, c, mark, before) && i < |c|
    ensures Due(book, c[i], now) ==> Deadline(book, c[i]) <= now
    ensures Lag(book, c[i]) == 0.0 ==> (Due(book, c[i], now) <==> Deadline(book, c[i]) <= now)
    ensures c[i].key - (now - mark) >= Deadline(book, c[i]) - now
    ensures c[i].key - (now - mark) == Deadline(book, c[i]) - now <==> Lag(book, c[i]) == 0.0
  {
    assert OnTime(book, c[i], mark, before);
  }

  /** What a check that sets off the timer `e` at the first read `now` of the clock must report. */
  ghost predicate GoesOff(book: Book, e: Timer, now: real, event: TimerEvent) {
    && event.target == e.value.target && event.timer == e.value.timer
    && Due(book, e, now) && e.value.timeout > 0.0
    && var late := now - book.ledger[e.value.timer].armed - Lag(book, e);
       && event.count >= 1
       && event.count as real * e.value.timeout <= late
       && late / e.value.timeout < event.count as real + 1.0
  }

  /** The event of a timer: an expired one counts the times that it would have gone off by now. */
  function FillEvent(timer: Timer): TimerEvent
    requires timer.value.timeout > 0.0
  {
    var count := if timer.key <= 0.0 then ((timer.value.timeout - timer.key) / timer.value.timeout).Floor else 0;
    TimerEvent(timer.value.target, timer.value.timer, count)
  }

  lemma OneFits(timeout: real, remaining: real)
    requires timeout > 0.0 && (timeout - remaining) / timeout < 2.0
    ensures -timeout < remaining
  {
    var q := (timeout - remaining) / timeout;
    assert q * timeout == timeout - remaining;
    TimesMonotone(q, 2.0, timeout);
  }

  lemma TwoFit(timeout: real, remaining: real, count: int)
    requires timeout > 0.0 && count >= 2 && count as real * timeout <= timeout - remaining
    ensures remaining <= -timeout
  {
    assert count as real >= 2.0;
    TimesMonotone(2.0, count as real, timeout);
  }

  /** An expired timer, one-shot or not, reports a count of 1 exactly as long as it is found less than one timeout late. */
  lemma CountIsOne(timer: Timer)
    requires timer.value.timeout > 0.0 && timer.key <= 0.0
    ensures FillEvent(timer).count == 1 <==> -timer.value.timeout < timer.key
  {
    var t, count := timer.value.timeout, FillEvent(timer).count;
    CountBounds(t, timer.key, count);
    if count == 1 {
      OneFits(t, timer.key);
    } else {
      TwoFit(t, timer.key, count);
    }
  }

  /** A one-shot timer of one second that is found a second late reports a count of 2. */
  lemma OneShotCountsTwo()
    ensures FillEvent(Entry(-1.0, TimerInfo(0, 1.0, TheTimer(0), true))).count == 2
  {
    assert (1.0 - -1.0) / 1.0 == 2.0;
  }

  /** All the repeats of a timer, those of the event included, fit the time since it was created. */
  ghost predicate RepeatsFit(l: Ledger, e: Timer, event: TimerEvent, now: real) {
    (l.reported + event.count) as real * e.value.timeout <= now - l.born
  }

  /** The count that is filled in fits the absolute delay. */
  lemma CountFitsDelay(book: Book, e: Timer, mark: real, before: real, now: real, event: TimerEvent)
    requires OnTime(book, e, mark, before) && e.key - (now - mark) <= 0.0
    requires event == FillEvent(Entry(e.key - (now - mark), e.value))
    ensures GoesOff(book, e, now, event) && e.value.timer in book.ledger
    ensures
      var l := book.ledger[e.value.timer];
      RepeatsFit(l, e, event, now) && (before <= now ==> l.born <= now)
  {
    CountBounds(e.value.timeout, e.key - (now - mark), event.count);
    var l := book.ledger[e.value.timer];
    assert (l.reported + event.count) as real * e.value.timeout
        == l.reported as real * e.value.timeout + event.count as real * e.value.timeout;
  }

  lemma EachOnTime(book: Book, c: seq<Timer>, mark: real, now: real, i: nat)
    requires AllOnTime(book, c, mark, now) && i < |c|
    ensures OnTime(book, c[i], mark, now) && c[i].value.timeout > 0.0
  {
  }

  lemma OnTimePrefix(book: Book, c: seq<Timer>, e: Timer, mark: real, now: real)
    requires AllOnTime(book, c + [e], mark, now)
    ensures AllOnTime(book, c, mark, now)
    ensures forall i :: 0 <= i < |c| ==> c[i].value.timer != e.value.timer
  {
    var d := c + [e];
    assert d[|c|] == e && forall i :: 0 <= i < |c| ==> c[i] == d[i];
  }

  /** The timer at the front starts anew with its full timeout; the others stay as they are. */
  lemma Restart(book: Book, c: seq<Timer>, rest: seq<Timer>, now: real, l: Ledger)
    requires c != [] && AllOnTime(book, c, now, now)
    requires |rest| == |c| - 1 && multiset(rest) == multiset(c) - multiset{c[0]}
    requires l.armed == now && l.lostBefore == book.lost && l.born <= now
    requires l.reported as real * c[0].value.timeout <= now - l.born
    ensures
      var e := c[0].(key := c[0].value.timeout);
      var book' := Book(book.ledger[e.value.timer := l], book.lost);
      AllOnTime(book', rest + [e], now, now) && AllOnTime(book', rest, now, now)
  {
    var e := c[0].(key := c[0].value.timeout);
    assert OnTime(book, c[0], now, now);
    assert IsPermutation(c, rest + [c[0]]) by {
      assert c[0] in multiset(c);
    }
    OnTimePermutation(book, c, rest + [c[0]], now, now);
    OnTimePrefix(book, rest, c[0], now, now);
    OnTimeLater(book, rest, e, now, now, l, now);
    OnTimePrefix(Book(book.ledger[e.value.timer := l], book.lost), rest, e, now, now);
  }

  /** All that a check does to the book and to the queue when it sets off the timer `e`. */
  ghost predicate Fired(book: Book, c: seq<Timer>, mark: real, first: real, second: real, e: Timer, event: TimerEvent,
                        book': Book, c': seq<Timer>) {
    && e in c && (forall i :: 0 <= i < |c| ==> e.key <= c[i].key)
    && GoesOff(book, e, first, event)
    && var l := book.ledger[e.value.timer];
       var lost := book.lost + (second - first);
       var dt := first - mark;
       && RepeatsFit(l, e, event, first)
       && book' == Book(book.ledger[e.value.timer := Ledger(l.born, second, lost, l.reported + event.count)], lost)
       && multiset(c') == multiset(Shifted(c, dt)) - multiset{Entry(e.key - dt, e.value)}
            + if e.value.oneShot then multiset{} else multiset{Entry(e.value.timeout, e.value)}
  }

  /** All that a check does when no timer is due. */
  ghost predicate Waited(book: Book, c: seq<Timer>, mark: real, first: real, second: real, book': Book, c': seq<Timer>) {
    && (forall i :: 0 <= i < |c| ==> !Due(book, c[i], first))
    && (c == [] ==> c' == [] && book' == book)
    && (c != [] ==> c' == Shifted(c, first - mark) && book' == book.(lost := book.lost + (second - first)))
  }

  lemma IsFired(book: Book, c: seq<Timer>, mark: real, before: real, first: real, second: real, e: Timer, l: Ledger,
                event: TimerEvent, book': Book, c': seq<Timer>)
    requires c != [] && AllOnTime(book, c, mark, before) && before <= first <= second
    requires e == c[0] && forall i :: 0 <= i < |c| ==> e.key <= c[i].key
    requires e.key - (first - mark) <= 0.0 && e.value.timer in book.ledger && l == book.ledger[e.value.timer]
    requires event == FillEvent(Entry(e.key - (first - mark), e.value))
    requires book'.lost == book.lost + (second - first)
    requires book'.ledger == book.ledger[e.value.timer := Ledger(l.born, second, book'.lost, l.reported + event.count)]
    requires multiset(c') == multiset(Shifted(c, first - mark)) - multiset{Entry(e.key - (first - mark), e.value)}
      + if e.value.oneShot then multiset{} else multiset{Entry(e.value.timeout, e.value)}
    ensures Fired(book, c, mark, first, second, e, event, book', c')
  {
    hide AllOnTime, OnTime, GoesOff, Due, FillEvent, DistinctTimers, Shifted, RepeatsFit;
    EachOnTime(book, c, mark, before, 0);
    CountFitsDelay(book, e, mark, before, first, event);
    assert e in c;
  }

  lemma IsWaited(book: Book, c: seq<Timer>, mark: real, before: real, first: real, second: real)
    requires AllOnTime(book, c, mark, before)
    requires forall i :: 0 <= i < |c| ==> c[i].key - (first - mark) > 0.0
    ensures c != [] ==>
      Waited(book, c, mark, first, second, book.(lost := book.lost + (second - first)), Shifted(c, first - mark))
    ensures c == [] ==> Waited(book, c, mark, first, second, book, c)
  {
    DueShows(book, c, mark, before, first);
  }

  /** The front after counting down was at the front before, and least. */
  lemma LeastBefore(before: seq<Timer>, dt: real, top: Timer)
    requires before != [] && top == Shifted(before, dt)[0]
    requires forall e :: e in Shifted(before, dt) ==> top.key <= e.key
    ensures top == Entry(before[0].key - dt, before[0].value)
    ensures forall i :: 0 <= i < |before| ==> before[0].key <= before[i].key
    ensures top.key > 0.0 ==> forall i :: 0 <= i < |before| ==> before[i].key - dt > 0.0
  {
    forall i | 0 <= i < |before|
      ensures before[0].key <= before[i].key && (top.key > 0.0 ==> before[i].key - dt > 0.0)
    {
      assert Shifted(before, dt)[i] in Shifted(before, dt);
    }
  }

  lemma WithoutOne(a: seq<Timer>, b: seq<Timer>, i: nat)
    requires i < |a| && |b| == |a| - 1 && multiset(b) == multiset(a) - multiset{a[i]}
    ensures IsPermutation(a, b + [a[i]])
    ensures forall e :: e in a <==> e in b || e == a[i]
  {
    assert a[i] in multiset(a);
    forall e ensures e in a <==> e in b || e == a[i] {
      SamePlaces(a, b + [a[i]], e);
      assert e in b + [a[i]] <==> e in b || e == a[i];
    }
  }

  class EventTimers {
    const time: Stopwatch
    const timerQueue: PriorityQueue<TimerInfo>
    var timers: set<TimerID>

    ghost var book: Book

    ghost predicate Valid()
      reads this, time, timerQueue
    {
      && time.Valid() && !time.stopped && !time.triggered
      && timerQueue.Valid()
      && (forall i :: 0 <= i < |timerQueue.c| ==> timerQueue.c[i].value.timer in timers)
      && AllOnTime(book, timerQueue.c, time.mark, time.history.at)
    }

    constructor (now: real)
      ensures Valid() && fresh(time) && fresh(timerQueue)
      ensures timerQueue.c == [] && timers == {} && book == Book(map[], 0.0) && time.history.at == now
    {
      time := new Stopwatch(false, now);
      timerQueue := new PriorityQueue<TimerInfo>();
      timers, book := {}, Book(map[], 0.0);
    }

    /** Creates a timer that has its full duration before it. */
    method NewTimer(timer: TimerID, duration: real, target: Option<nat>, oneShot: bool, now: real)
      requires Valid() && timer !in timers && duration > 0.0 && time.history.at <= now
      modifies this, time, timerQueue
      ensures Valid() && timers == old(timers) + {timer} && time.history.at == now
      ensures book == Book(old(book.ledger)[timer := Ledger(now, now, old(book.lost), 0)], old(book.lost))
      ensures
        var target' := if target.None? then TheTimer(timer) else Object(target.value);
        exists e: Timer :: e.value == TimerInfo(timer, duration, target', oneShot)
          && multiset(timerQueue.c) == old(multiset(timerQueue.c)) + multiset{e}
    {
      hide AllOnTime;
      ghost var before, l := timerQueue.c, Ledger(now, now, book.lost, 0);
      var target' := if target.None? then TheTimer(timer) else Object(target.value);
      timers := timers + {timer};
      var reading := time.GetTime(now);
      var e := Entry(duration + reading, TimerInfo(timer, duration, target', oneShot));
      timerQueue.Push(e);
      OnTimeLater(book, before, e, time.mark, old(time.history.at), l, now);
      book := Book(book.ledger[timer := l], book.lost);
      OnTimePermutation(book, before + [e], timerQueue.c, time.mark, now);
      forall i | 0 <= i < |timerQueue.c| ensures timerQueue.c[i].value.timer in timers {
        SamePlaces(before + [e], timerQueue.c, timerQueue.c[i]);
      }
    }

    /** Removes a timer for good; all others stay as they are. */
    method DeleteTimer(timer: TimerID)
      requires Valid()
      modifies this`timers, timerQueue
      ensures Valid() && timers == old(timers) - {timer}
      ensures forall e :: e in timerQueue.c <==> e in old(timerQueue.c) && e.value.timer != timer
    {
      ghost var before := timerQueue.c;
      var index := 0;
      while index < |timerQueue.c|
        invariant 0 <= index <= |before| && timerQueue.c == before && timerQueue.Valid()
        invariant forall i :: 0 <= i < index ==> before[i].value.timer != timer
      {
        if timerQueue.c[index].value.timer == timer {
          timerQueue.Erase(index);
          WithoutOne(before, timerQueue.c, index);
          OnTimePermutation(book, before, timerQueue.c + [before[index]], time.mark, time.history.at);
          OnTimePrefix(book, timerQueue.c, before[index], time.mark, time.history.at);
          assert forall i :: 0 <= i < |timerQueue.c| ==> timerQueue.c[i] in timerQueue.c && timerQueue.c[i] in before;
          break;
        }
        index := index + 1;
      }
      timers := timers - {timer};
    }

    /** Counts all timers down by `dt`, one after the other. */
    method CountDown(dt: real)
      requires timerQueue.Valid()
      modifies timerQueue
      ensures timerQueue.Valid() && timerQueue.c == Shifted(old(timerQueue.c), dt)
    {
      ghost var before := timerQueue.c;
      var index := 0;
      while index < |timerQueue.c|
        invariant 0 <= index <= |timerQueue.c| == |before|
        invariant forall i :: 0 <= i < index ==> timerQueue.c[i] == Shifted(before, dt)[i]
        invariant forall i :: index <= i < |before| ==> timerQueue.c[i] == before[i]
      {
        timerQueue.SubtractAt(index, dt);
        index := index + 1;
      }
      assert timerQueue.c == Shifted(before, dt);
      ShiftedIsHeap(before, dt);
    }

    /** The first half of the check: the time since the last one is taken off all timers. */
    method Elapse(first: real, second: real)
      requires Valid() && time.history.at <= first <= second
      modifies this`book, time, timerQueue
      ensures Valid() && time.mark == second == time.history.at
      ensures timerQueue.c == Shifted(old(timerQueue.c), first - old(time.mark))
      ensures book == old(book).(lost := old(book.lost) + (second - first))
    {
      hide AllOnTime, OnTime, DistinctTimers, IsHeap, Ordered;
      ghost var before, mark0, at0 := timerQueue.c, time.mark, time.history.at;
      var dt := time.GetTime(first);
      var dropped := time.Reset(second);
      CountDown(dt);
      OnTimeShifted(book, before, mark0, at0, first, second);
      book := book.(lost := book.lost + (second - first));
    }

    /** Checks the timers, reading the clock twice; a timer that goes off is one with the least time left,
        and starts anew unless it is a one-shot.  `which` is its queue entry before the check. */
    method HasTimerExpired(first: real, second: real) returns (fired: Option<TimerEvent>, ghost which: Timer)
      requires Valid() && time.history.at <= first <= second
      modifies this, time, timerQueue
      ensures Valid() && timers == old(timers)
      ensures time.mark == if old(timerQueue.c) == [] then old(time.mark) else second
      ensures time.history.at == if old(timerQueue.c) == [] then old(time.history.at) else second
      ensures fired.None? ==>
        Waited(old(book), old(timerQueue.c), old(time.mark), first, second, book, timerQueue.c)
      ensures fired.Some? ==>
        Fired(old(book), old(timerQueue.c), old(time.mark), first, second, which, fired.value, book, timerQueue.c)
    {
      hide AllOnTime, OnTime, DistinctTimers, Fired, Waited, IsHeap, Ordered, Running, Armed, Ran, Shifted;
      ghost var before, book0, mark0, at0 := timerQueue.c, book, time.mark, time.history.at;
      if timerQueue.c == [] {
        IsWaited(book, [], mark0, at0, first, second);
        return None, *;
      }
      Elapse(first, second);
      which := before[0];
      fired := Finish(before, book0, mark0, at0, first, second);
    }

    /** What the check does after counting down from `before`: it sets off the timer at the front if it has expired. */
    method Finish(ghost before: seq<Timer>, ghost book0: Book, ghost mark0: real, ghost at0: real, ghost first: real,
                  ghost second: real)
      returns (fired: Option<TimerEvent>)
      requires Valid() && time.mark == second == time.history.at && before != []
      requires timerQueue.c == Shifted(before, first - mark0) && book == book0.(lost := book0.lost + (second - first))
      requires AllOnTime(book0, before, mark0, at0) && at0 <= first <= second
      modifies this, timerQueue
      ensures Valid() && timers == old(timers)
      ensures fired.None? ==> Waited(book0, before, mark0, first, second, book, timerQueue.c)
      ensures fired.Some? ==> Fired(book0, before, mark0, first, second, before[0], fired.value, book, timerQueue.c)
    {
      hide Valid, AllOnTime, OnTime, DistinctTimers, Fired, Waited, FillEvent, IsHeap, Shifted, RepeatsFit;
      QueueIsValid();
      var top := timerQueue.Top();
      LeastBefore(before, first - mark0, top);
      if top.key > 0.0 {
        IsWaited(book0, before, mark0, at0, first, second);
        return None;
      }
      EachOnTime(book0, before, mark0, at0, 0);
      var event := SetOff(second);
      IsFired(book0, before, mark0, at0, first, second, before[0], book0.ledger[before[0].value.timer], event, book,
              timerQueue.c);
      fired := Some(event);
    }

    lemma QueueIsValid()
      requires Valid()
      ensures timerQueue.Valid()
    {
    }

    /** The second half of the check, at `now`: the timer at the front has expired, is reported and starts anew. */
    method SetOff(ghost now: real) returns (event: TimerEvent)
      requires Valid() && time.mark == now == time.history.at
      requires timerQueue.c != [] && timerQueue.c[0].key <= 0.0 && timerQueue.c[0].value.timeout > 0.0
      modifies this, timerQueue
      ensures Valid() && timers == old(timers)
      ensures
        var e := old(timerQueue.c[0]);
        && event == FillEvent(e)
        && e.value.timer in old(book.ledger)
        && (var l := old(book.ledger)[e.value.timer];
            book == Book(old(book.ledger)[e.value.timer := Ledger(l.born, now, old(book.lost), l.reported + event.count)],
                         old(book.lost)))
        && multiset(timerQueue.c) == old(multiset(timerQueue.c)) - multiset{e}
             + if e.value.oneShot then multiset{} else multiset{Entry(e.value.timeout, e.value)}
    {
      hide AllOnTime, OnTime, DistinctTimers, Due, GoesOff, FillEvent, IsHeap, Ordered, Running, Armed, Ran;
      ghost var all := timerQueue.c;
      EachOnTime(book, all, now, now, 0);
      var timer := timerQueue.Top();
      timerQueue.Pop();
      event := FillEvent(timer);
      CountFitsDelay(book, timer, now, now, now, event);
      ghost var l0 := book.ledger[timer.value.timer];
      ghost var l := Ledger(l0.born, now, book.lost, l0.reported + event.count);
      Restart(book, all, timerQueue.c, now, l);
      SamePart(all, timerQueue.c);
      book := Book(book.ledger[timer.value.timer := l], book.lost);
      timer := timer.(key := timer.value.timeout);
      ghost var rest := timerQueue.c;
      if !timer.value.oneShot {
        timerQueue.Push(timer);
        OnTimePermutation(book, rest + [timer], timerQueue.c, now, now);
        SamePart(rest + [timer], timerQueue.c);
      }
    }
  }

  /** Whatever is left or reordered was there before. */
  lemma SamePart(a: seq<Timer>, b: seq<Timer>)
    requires multiset(b) <= multiset(a)
    ensures forall i :: 0 <= i < |b| ==> b[i] in a
  {
    forall i | 0 <= i < |b| ensures b[i] in a {
      assert b[i] in multiset(b);
    }
  }
}
