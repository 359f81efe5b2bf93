/** Whole runs of the timers, against timers that know their absolute deadlines. */
module TimerRuns {
  import opened Options
  import opened PriorityQueues
  import opened Timers

  /** A timer that is waiting, in absolute time: when it was created and last set, how much clock time the checks have
      lost to it since then, and how many repeats it has reported. */
  datatype Ref = Ref(info: TimerInfo, born: real, armed: real, lag: real, reported: int)

  type Live = map<TimerID, Ref>

  datatype Happening =
    | Created(info: TimerInfo, now: real)
    | Deleted(timer: TimerID)
    | WentOff(timer: TimerID, count: int, first: real, second: real)
    | Quiet(first: real, second: real)

  /** The earliest reading of the clock that sets the timer off: its deadline, put off by the time lost to it. */
  function DueAt(r: Ref): real {
    r.armed + r.info.timeout + r.lag
  }

  function Lagged(live: Live, lost: real): Live {
    map timer | timer in live :: live[timer].(lag := live[timer].lag + lost)
  }

  /** A timer that has gone off starts anew, unless it is a one-shot. */
  function SetAnew(live: Live, timer: TimerID, count: int, now: real): Live {
    if timer !in live || live[timer].info.oneShot then live - {timer}
    else live[timer := Ref(live[timer].info, live[timer].born, now, 0.0, live[timer].reported + count)]
  }

  function After(live: Live, h: Happening): Live {
    match h
    case Created(info, now) => live[info.timer := Ref(info, now, now, 0.0, 0)]
    case Deleted(timer) => live - {timer}
    case Quiet(first, second) => Lagged(live, second - first)
    case WentOff(timer, count, first, second) => SetAnew(Lagged(live, second - first), timer, count, second)
  }

  /** A timer that goes off is due, and none is due before it; a quiet check means that none is due. */
  ghost predicate Right(live: Live, h: Happening) {
    match h
    case Created(info, _) => info.timer !in live && info.timeout > 0.0
    case Deleted(_) => true
    case Quiet(first, _) => forall timer :: timer in live ==> DueAt(live[timer]) > first
    case WentOff(timer, count, first, _) =>
      && timer in live && DueAt(live[timer]) <= first
      && (forall other :: other in live ==> DueAt(live[timer]) <= DueAt(live[other]))
      && live[timer].info.timeout > 0.0
      && count == ((first - live[timer].armed - live[timer].lag) / live[timer].info.timeout).Floor
  }

  function LiveAfter(log: seq<Happening>): Live {
    if log == [] then map[] else After(LiveAfter(log[..|log| - 1]), log[|log| - 1])
  }

  ghost predicate AllRight(log: seq<Happening>) {
    log == [] || (AllRight(log[..|log| - 1]) && Right(LiveAfter(log[..|log| - 1]), log[|log| - 1]))
  }

  function Now(log: seq<Happening>, start: real): real {
    if log == [] then start
    else
      match log[|log| - 1]
      case Created(_, now) => now
      case Deleted(_) => Now(log[..|log| - 1], start)
      case Quiet(_, second) => second
      case WentOff(_, _, _, second) => second
  }

  predicate InTime(h: Happening, before: real, now: real) {
    match h
    case Created(_, at) => before <= at == now
    case Deleted(_) => before == now
    case Quiet(first, second) => before <= first <= second == now
    case WentOff(_, _, first, second) => before <= first <= second == now
  }

  /** The clock does not go back. */
  predicate Clocked(log: seq<Happening>, start: real) {
    log == [] ||
    (Clocked(log[..|log| - 1], start) && InTime(log[|log| - 1], Now(log[..|log| - 1], start), Now(log, start)))
  }

  // ---------- What follows for every run ----------

  ghost predicate Kept(r: Ref, now: real) {
    && r.info.timeout > 0.0 && r.born <= r.armed && r.armed + r.lag <= now && 0.0 <= r.lag && 0 <= r.reported
    && r.reported as real * r.info.timeout <= r.armed - r.born
  }

  lemma FloorFits(late: real, timeout: real)
    requires timeout > 0.0 && late >= timeout
    ensures (late / timeout).Floor >= 1 && (late / timeout).Floor as real * timeout <= late
  {
    CountBounds(timeout, timeout - late, (late / timeout).Floor);
  }

  lemma KeptFired(r: Ref, count: int, before: real, first: real, second: real)
    requires Kept(r, before) && before <= first <= second && DueAt(r) <= first
    requires count == ((first - r.armed - r.lag) / r.info.timeout).Floor
    ensures r.armed + r.info.timeout <= first && count >= 1
    ensures (r.reported + count) as real * r.info.timeout <= first - r.born
    ensures Kept(Ref(r.info, r.born, second, 0.0, r.reported + count), second)
  {
    FloorFits(first - r.armed - r.lag, r.info.timeout);
    assert (r.reported + count) as real * r.info.timeout
        == r.reported as real * r.info.timeout + count as real * r.info.timeout;
  }

  lemma KeptLagged(r: Ref, before: real, first: real, second: real)
    requires Kept(r, before) && before <= first <= second
    ensures Kept(r.(lag := r.lag + (second - first)), second)
  {
  }

  lemma KeptLater(r: Ref, before: real, now: real)
    requires Kept(r, before) && before <= now
    ensures Kept(r, now)
  {
  }

  lemma KeptStep(live: Live, h: Happening, before: real, now: real)
    requires forall timer :: timer in live ==> Kept(live[timer], before)
    requires Right(live, h) && InTime(h, before, now)
    ensures forall timer :: timer in After(live, h) ==> Kept(After(live, h)[timer], now)
  {
    if h.Created? {
      assert Kept(Ref(h.info, now, now, 0.0, 0), now);
    }
    hide Kept;
    forall timer | timer in live && before <= now ensures Kept(live[timer], now) {
      KeptLater(live[timer], before, now);
    }
    if h.WentOff? {
      KeptFired(live[h.timer], h.count, before, h.first, h.second);
    }
    if h.WentOff? || h.Quiet? {
      forall timer | timer in live ensures Kept(live[timer].(lag := live[timer].lag + (h.second - h.first)), now) {
        KeptLagged(live[timer], before, h.first, h.second);
      }
    }
  }

  lemma {:induction false} AllKept(log: seq<Happening>, start: real)
    requires AllRight(log) && Clocked(log, start)
    ensures forall timer :: timer in LiveAfter(log) ==> Kept(LiveAfter(log)[timer], Now(log, start))
  {
    if log != [] {
      hide Right, After, Kept;
      var before := log[..|log| - 1];
      AllKept(before, start);
      KeptStep(LiveAfter(before), log[|log| - 1], Now(before, start), Now(log, start));
    }
  }

  /** No timer goes off before its timeout has passed since it was created or last went off; it reports at least one
      repeat; and all the repeats that it has reported take no longer than it has lived. */
  lemma NeverEarlyNorTooOften(log: seq<Happening>, start: real)
    requires log != [] && AllRight(log) && Clocked(log, start) && log[|log| - 1].WentOff?
    ensures
      var h := log[|log| - 1];
      var live := LiveAfter(log[..|log| - 1]);
      && h.timer in live
      && var r := live[h.timer];
         && r.armed + r.info.timeout <= h.first
         && h.count >= 1
         && (r.reported + h.count) as real * r.info.timeout <= h.first - r.born
  {
    hide Kept;
    var before, h := log[..|log| - 1], log[|log| - 1];
    AllKept(before, start);
    KeptFired(LiveAfter(before)[h.timer], h.count, Now(before, start), h.first, h.second);
  }

  /** When both reads of the clock in every check so far coincide, a timer goes off exactly from its deadline on. */
  lemma {:induction false} NoLagWithoutGaps(log: seq<Happening>)
    requires forall k :: 0 <= k < |log| && log[k].Quiet? ==> log[k].first == log[k].second
    requires forall k :: 0 <= k < |log| && log[k].WentOff? ==> log[k].first == log[k].second
    ensures forall timer :: timer in LiveAfter(log) ==>
      var r := LiveAfter(log)[timer]; r.lag == 0.0 && DueAt(r) == r.armed + r.info.timeout
  {
    if log != [] {
      var h := log[|log| - 1];
      NoLagWithoutGaps(log[..|log| - 1]);
    }
  }

  // ---------- Which timers wait, and since when ----------

  predicate CreatedAt(log: seq<Happening>, i: nat, timer: TimerID) {
    i < |log| && log[i].Created? && log[i].info.timer == timer
  }

  predicate GoesOffAt(log: seq<Happening>, k: nat, timer: TimerID) {
    k < |log| && log[k].WentOff? && log[k].timer == timer
  }

  /** The timer created by step `i` has been neither deleted since nor, as a one-shot, gone off. */
  predicate NotEnded(log: seq<Happening>, i: nat)
    requires i < |log| && log[i].Created?
  {
    forall k :: i < k < |log| ==>
      !(log[k].Deleted? && log[k].timer == log[i].info.timer)
      && !(log[i].info.oneShot && GoesOffAt(log, k, log[i].info.timer))
  }

  /** The clock time that was lost by the checks after step `j`. */
  function LostSince(log: seq<Happening>, j: nat): real {
    if |log| <= j + 1 then 0.0
    else
      var h := log[|log| - 1];
      LostSince(log[..|log| - 1], j) + if h.Quiet? || h.WentOff? then h.second - h.first else 0.0
  }

  /** The repeats that the timer has reported after step `i`. */
  function ReportedSince(log: seq<Happening>, i: nat, timer: TimerID): int {
    if |log| <= i + 1 then 0
    else
      var h := log[|log| - 1];
      ReportedSince(log[..|log| - 1], i, timer) + if h.WentOff? && h.timer == timer then h.count else 0
  }

  /** The timer was last set by step `j`: the step that created it, or the last one in which it went off. */
  predicate LastSetBy(log: seq<Happening>, i: nat, j: nat, timer: TimerID) {
    && i <= j < |log| && (j == i || GoesOffAt(log, j, timer))
    && forall k :: j < k < |log| ==> !GoesOffAt(log, k, timer)
  }

  function SetAt(h: Happening): real
    requires h.Created? || h.WentOff?
  {
    if h.Created? then h.now else h.second
  }

  /** A timer that was created and not ended since waits as it was created; it is due one timeout after it was created or
      last went off, put off by what was lost since then. */
  lemma {:induction false} WaitsSince(log: seq<Happening>, i: nat, j: nat, timer: TimerID)
    requires AllRight(log) && CreatedAt(log, i, timer) && NotEnded(log, i) && LastSetBy(log, i, j, timer)
    ensures timer in LiveAfter(log)
    ensures LiveAfter(log)[timer]
      == Ref(log[i].info, log[i].now, SetAt(log[j]), LostSince(log, j), ReportedSince(log, i, timer))
    decreases |log|
  {
    var n := |log| - 1;
    var before := log[..n];
    if i < n {
      if j == n {
        var j' := LastSet(before, i, timer);
        WaitsSince(before, i, j', timer);
      } else {
        assert LastSetBy(before, i, j, timer) by {
          assert forall k :: j < k < n && GoesOffAt(before, k, timer) ==> GoesOffAt(log, k, timer);
        }
        WaitsSince(before, i, j, timer);
        assert !GoesOffAt(log, n, timer);
      }
    }
  }

  lemma {:induction false} LastSet(log: seq<Happening>, i: nat, timer: TimerID) returns (j: nat)
    requires i < |log|
    ensures LastSetBy(log, i, j, timer)
  {
    j := |log| - 1;
    while j > i && !GoesOffAt(log, j, timer)
      invariant i <= j < |log| && forall k :: j < k < |log| ==> !GoesOffAt(log, k, timer)
    {
      j := j - 1;
    }
  }

  /** No other timer waits. */
  lemma {:induction false} WasCreated(log: seq<Happening>, timer: TimerID) returns (i: nat)
    requires AllRight(log) && timer in LiveAfter(log)
    ensures CreatedAt(log, i, timer) && NotEnded(log, i)
    decreases |log|
  {
    var n := |log| - 1;
    if log[n].Created? && log[n].info.timer == timer {
      i := n;
    } else {
      var before := log[..n];
      i := WasCreated(before, timer);
      var j := LastSet(before, i, timer);
      WaitsSince(before, i, j, timer);
      assert forall k :: i < k < n && GoesOffAt(log, k, timer) ==> GoesOffAt(before, k, timer);
    }
  }

  /** In every run, a one-shot timer does not go off again unless its address is used for a new timer. */
  lemma OneShotOnce(log: seq<Happening>, i: nat, j: nat, timer: TimerID) returns (k: nat)
    requires AllRight(log) && i < j && GoesOffAt(log, i, timer) && GoesOffAt(log, j, timer)
    requires timer in LiveAfter(log[..i]) ==> LiveAfter(log[..i])[timer].info.oneShot
    ensures i < k < j && CreatedAt(log, k, timer)
  {
    hide AllRight, LiveAfter, NotEnded;
    RightAt(log, i);
    RightAt(log, j);
    k := WasCreated(log[..j], timer);
    if k <= i {
      assert log[..j][..i] == log[..i];
      hide *;
      EndedThere(log[..j], k, i, timer);
      assert false;
    }
  }

  lemma EndedThere(log: seq<Happening>, k: nat, i: nat, timer: TimerID)
    requires k <= i < |log| && AllRight(log[..i]) && CreatedAt(log, k, timer) && GoesOffAt(log, i, timer)
    requires timer in LiveAfter(log[..i]) ==> LiveAfter(log[..i])[timer].info.oneShot
    ensures !NotEnded(log, k)
  {
    if NotEnded(log, k) {
      var j := LastSet(log[..i], k, timer);
      assert forall m :: k < m < i && GoesOffAt(log[..i], m, timer) ==> GoesOffAt(log, m, timer);
      WaitsSince(log[..i], k, j, timer);
    }
  }

  lemma {:induction false} RightAt(log: seq<Happening>, n: nat)
    requires n < |log| && AllRight(log)
    ensures AllRight(log[..n]) && Right(LiveAfter(log[..n]), log[n])
    decreases |log|
  {
    hide Right, LiveAfter;
    if n < |log| - 1 {
      RightAt(log[..|log| - 1], n);
      assert log[..|log| - 1][..n] == log[..n];
    }
  }

  // ---------- Progress ----------

  predicate IsCheck(h: Happening) {
    h.Quiet? || h.WentOff?
  }

  /** The timers that are due no later than `timer`, and so may go off before it. */
  ghost function Ahead(live: Live, timer: TimerID): set<TimerID>
    requires timer in live
  {
    set other | other in live && DueAt(live[other]) <= DueAt(live[timer])
  }

  lemma AheadFew(live: Live, timer: TimerID)
    requires timer in live
    ensures 1 <= |Ahead(live, timer)| <= |live|
  {
    assert timer in Ahead(live, timer);
    FewerOf(Ahead(live, timer), live.Keys);
  }

  lemma {:induction false} FewerOf(a: set<TimerID>, b: set<TimerID>)
    requires a <= b
    ensures |a| <= |b| && (a != b ==> |a| < |b|)
  {
    assert b == a + (b - a) && a !! b - a;
  }

  /** A check that finds a timer due, and sets off another one, leaves it due with one timer fewer ahead of it. */
  lemma OneCheckCloser(live: Live, h: Happening, timer: TimerID, now: real, later: real)
    requires timer in live && DueAt(live[timer]) <= now
    requires Right(live, h) && InTime(h, now, later) && IsCheck(h) && !(h.WentOff? && h.timer == timer)
    ensures timer in After(live, h) && DueAt(After(live, h)[timer]) <= later
    ensures |Ahead(After(live, h), timer)| < |Ahead(live, timer)|
  {
    var live' := After(live, h);
    var u := h.timer;
    forall v | v in Ahead(live', timer) ensures v in Ahead(live, timer) && v != u {
    }
    assert u in Ahead(live, timer);
    FewerOf(Ahead(live', timer), Ahead(live, timer));
  }

  /** While only checks happen and a due timer does not go off, each of them brings it closer. */
  lemma {:induction false} StillDue(log: seq<Happening>, i: nat, timer: TimerID, start: real)
    requires i <= |log| && AllRight(log) && Clocked(log, start)
    requires timer in LiveAfter(log[..i]) && DueAt(LiveAfter(log[..i])[timer]) <= Now(log[..i], start)
    requires forall k :: i <= k < |log| ==> IsCheck(log[k]) && !(log[k].WentOff? && log[k].timer == timer)
    ensures timer in LiveAfter(log) && DueAt(LiveAfter(log)[timer]) <= Now(log, start)
    ensures |Ahead(LiveAfter(log), timer)| + |log| - i <= |Ahead(LiveAfter(log[..i]), timer)|
    decreases |log|
  {
    if i == |log| {
      assert log[..i] == log;
    } else {
      hide Right, After, InTime, DueAt, Ahead;
      var n := |log| - 1;
      var before := log[..n];
      assert before[..i] == log[..i];
      StillDue(before, i, timer, start);
      OneCheckCloser(LiveAfter(before), log[n], timer, Now(before, start), Now(log, start));
    }
  }

  lemma {:induction false} RightPrefix(log: seq<Happening>, n: nat, start: real)
    requires n <= |log| && AllRight(log) && Clocked(log, start)
    ensures AllRight(log[..n]) && Clocked(log[..n], start)
    decreases |log|
  {
    if n < |log| {
      RightPrefix(log[..|log| - 1], n, start);
      assert log[..|log| - 1][..n] == log[..n];
    } else {
      assert log[..n] == log;
    }
  }

  /** A timer that is due goes off within as many checks as there are timers that are due no later, so within as many
      as there are timers, if none is created or deleted meanwhile. */
  lemma {:induction false} DueGoesOff(log: seq<Happening>, i: nat, timer: TimerID, start: real) returns (k: nat)
    requires i <= |log| && AllRight(log) && Clocked(log, start)
    requires timer in LiveAfter(log[..i]) && DueAt(LiveAfter(log[..i])[timer]) <= Now(log[..i], start)
    requires forall k :: i <= k < |log| ==> IsCheck(log[k])
    requires |log| - i >= |Ahead(LiveAfter(log[..i]), timer)|
    ensures i <= k < |log| && log[k].WentOff? && log[k].timer == timer
    ensures k - i < |Ahead(LiveAfter(log[..i]), timer)| <= |LiveAfter(log[..i])|
  {
    hide AllRight, Clocked, LiveAfter, Now, DueAt, Ahead;
    var ahead := |Ahead(LiveAfter(log[..i]), timer)|;
    AheadFew(LiveAfter(log[..i]), timer);
    if forall j :: i <= j < i + ahead ==> !(log[j].WentOff? && log[j].timer == timer) {
      var run := log[..i + ahead];
      assert run[..i] == log[..i];
      RightPrefix(log, i + ahead, start);
      StillDue(run, i, timer, start);
      AheadFew(LiveAfter(run), timer);
      assert false;
    }
    k :| i <= k < i + ahead && log[k].WentOff? && log[k].timer == timer;
  }

  // ---------- The timers of the event queue do this ----------

  /** The queue holds exactly the timers that wait, each with its absolute data in the book. */
  ghost predicate Reflects(live: Live, book: Book, c: seq<Timer>) {
    && (forall e :: e in c ==> Matched(live, book, e))
    && (forall timer :: timer in live ==> exists e :: e in c && e.value.timer == timer)
  }

  ghost predicate Matched(live: Live, book: Book, e: Timer) {
    && e.value.timer in live && e.value.timer in book.ledger
    && var l := book.ledger[e.value.timer];
       live[e.value.timer] == Ref(e.value, l.born, l.armed, Lag(book, e), l.reported)
  }

  lemma CreatedReflects(live: Live, book: Book, c: seq<Timer>, e: Timer, c': seq<Timer>, now: real)
    requires Reflects(live, book, c) && e.value.timer !in live
    requires multiset(c') == multiset(c) + multiset{e}
    ensures Reflects(live[e.value.timer := Ref(e.value, now, now, 0.0, 0)],
                     Book(book.ledger[e.value.timer := Ledger(now, now, book.lost, 0)], book.lost), c')
  {
    var live' := live[e.value.timer := Ref(e.value, now, now, 0.0, 0)];
    var book' := Book(book.ledger[e.value.timer := Ledger(now, now, book.lost, 0)], book.lost);
    forall x ensures x in c' <==> x in c || x == e {
      assert x in c' <==> x in multiset(c');
      assert x in c <==> x in multiset(c);
    }
    forall x | x in c' ensures Matched(live', book', x) {
      if x != e {
        assert Matched(live, book, x);
      }
    }
    forall timer | timer in live' ensures exists x :: x in c' && x.value.timer == timer {
      if timer in live {
        var x :| x in c && x.value.timer == timer;
        assert x in c';
      } else {
        assert e in c';
      }
    }
  }

  lemma DeletedReflects(live: Live, book: Book, c: seq<Timer>, timer: TimerID, c': seq<Timer>)
    requires Reflects(live, book, c)
    requires forall e :: e in c' <==> e in c && e.value.timer != timer
    ensures Reflects(live - {timer}, book, c')
  {
    forall e | e in c' ensures Matched(live - {timer}, book, e) {
      assert Matched(live, book, e);
    }
    forall other | other in live - {timer} ensures exists e :: e in c' && e.value.timer == other {
      var e :| e in c && e.value.timer == other;
      assert e in c';
    }
  }

  lemma DueIsKey(live: Live, book: Book, c: seq<Timer>, mark: real, now: real, e: Timer)
    requires Reflects(live, book, c) && AllOnTime(book, c, mark, now) && e in c
    ensures Matched(live, book, e) && DueAt(live[e.value.timer]) == e.key + mark
    ensures forall t :: Due(book, e, t) <==> DueAt(live[e.value.timer]) <= t
  {
    var i :| 0 <= i < |c| && c[i] == e;
    assert OnTime(book, c[i], mark, now);
  }

  lemma QuietReflects(live: Live, book: Book, c: seq<Timer>, mark: real, now: real, first: real, second: real,
                      book': Book, c': seq<Timer>)
    requires Reflects(live, book, c) && AllOnTime(book, c, mark, now)
    requires Waited(book, c, mark, first, second, book', c')
    ensures Right(live, Quiet(first, second)) && Reflects(Lagged(live, second - first), book', c')
  {
    hide AllOnTime, OnTime;
    var live' := Lagged(live, second - first);
    forall timer | timer in live ensures DueAt(live[timer]) > first {
      var e :| e in c && e.value.timer == timer;
      DueIsKey(live, book, c, mark, now, e);
      assert !Due(book, e, first);
    }
    ShiftedMatches(live, book, c, first - mark, second - first);
  }

  /** Counting the queue down changes no more than the time lost. */
  lemma ShiftedMatches(live: Live, book: Book, c: seq<Timer>, dt: real, lost: real)
    requires Reflects(live, book, c)
    ensures Reflects(Lagged(live, lost), book.(lost := book.lost + lost), Shifted(c, dt))
  {
    var live', book', c' := Lagged(live, lost), book.(lost := book.lost + lost), Shifted(c, dt);
    forall e | e in c' ensures Matched(live', book', e) {
      var i :| 0 <= i < |c'| && c'[i] == e;
      assert Matched(live, book, c[i]);
    }
    forall timer | timer in live' ensures exists e :: e in c' && e.value.timer == timer {
      var e :| e in c && e.value.timer == timer;
      var i :| 0 <= i < |c| && c[i] == e;
      assert c'[i] in c';
    }
  }

  /** Taking one timer out of a queue of distinct ones, and putting `more` in, leaves all others. */
  lemma OthersStay(c: seq<Timer>, e: Timer, more: seq<Timer>, c': seq<Timer>)
    requires DistinctTimers(c) && e in c
    requires multiset(c') == multiset(c) - multiset{e} + multiset(more)
    ensures forall x :: x in c' <==> (x in c && x.value.timer != e.value.timer) || x in more
  {
    forall x ensures x in c' <==> (x in c && x.value.timer != e.value.timer) || x in more {
      OnePlace(c, e);
      assert x in c' <==> x in multiset(c');
      assert x in c <==> x in multiset(c);
      assert x in more <==> x in multiset(more);
      if x in c && x.value.timer == e.value.timer {
        assert x == e;
      }
    }
  }

  function Again(e: Timer): seq<Timer> {
    if e.value.oneShot then [] else [Entry(e.value.timeout, e.value)]
  }

  ghost function Noted(book: Book, timer: TimerID, count: int, now: real): Book
    requires timer in book.ledger
  {
    var l := book.ledger[timer];
    Book(book.ledger[timer := Ledger(l.born, now, book.lost, l.reported + count)], book.lost)
  }

  lemma WentOffReflects(live: Live, book: Book, c: seq<Timer>, e: Timer, c': seq<Timer>, now: real, count: int)
    requires Reflects(live, book, c) && DistinctTimers(c) && e in c && e.value.timer in book.ledger
    requires multiset(c') == multiset(c) - multiset{e} + multiset(Again(e))
    ensures Reflects(SetAnew(live, e.value.timer, count, now), Noted(book, e.value.timer, count, now), c')
  {
    var live' := SetAnew(live, e.value.timer, count, now);
    var book' := Noted(book, e.value.timer, count, now);
    assert Matched(live, book, e);
    OthersStay(c, e, Again(e), c');
    forall x | x in c' ensures Matched(live', book', x) {
      if x in c && x.value.timer != e.value.timer {
        assert Matched(live, book, x);
      }
    }
    forall timer | timer in live' ensures exists x :: x in c' && x.value.timer == timer {
      if timer == e.value.timer {
        assert Again(e)[0] in c';
      } else {
        var x :| x in c && x.value.timer == timer;
        assert x in c';
      }
    }
  }

  lemma FloorIs(late: real, timeout: real, count: int)
    requires timeout > 0.0 && count as real * timeout <= late && late / timeout < count as real + 1.0
    ensures count == (late / timeout).Floor
  {
    assert late / timeout * timeout == late;
    if late / timeout < count as real {
      TimesMonotone(late / timeout, count as real, timeout);
    }
  }

  lemma FiredIsRight(live: Live, book: Book, c: seq<Timer>, mark: real, at: real, first: real, second: real,
                     e: Timer, event: TimerEvent, book': Book, c': seq<Timer>)
    requires Reflects(live, book, c) && AllOnTime(book, c, mark, at)
    requires Fired(book, c, mark, first, second, e, event, book', c')
    ensures Right(live, WentOff(event.timer, event.count, first, second))
  {
    hide AllOnTime, OnTime, Reflects;
    var t := e.value.timer;
    DueIsKey(live, book, c, mark, at, e);
    forall other | other in live ensures DueAt(live[t]) <= DueAt(live[other]) {
      var e' := Queued(live, book, c, other);
      DueIsKey(live, book, c, mark, at, e');
    }
    FloorIs(first - live[t].armed - live[t].lag, e.value.timeout, event.count);
  }

  lemma Queued(live: Live, book: Book, c: seq<Timer>, timer: TimerID) returns (e: Timer)
    requires Reflects(live, book, c) && timer in live
    ensures e in c && e.value.timer == timer
  {
    e :| e in c && e.value.timer == timer;
  }

  lemma FiredReflects(live: Live, book: Book, c: seq<Timer>, mark: real, at: real, first: real, second: real,
                      e: Timer, event: TimerEvent, book': Book, c': seq<Timer>)
    requires Reflects(live, book, c) && AllOnTime(book, c, mark, at)
    requires Fired(book, c, mark, first, second, e, event, book', c')
    ensures Reflects(After(live, WentOff(event.timer, event.count, first, second)), book', c')
  {
    hide AllOnTime, OnTime, DistinctTimers, Reflects, Fired, SetAnew, Noted, Lagged, Again, Shifted;
    var dt, lost, timer := first - mark, second - first, e.value.timer;
    var d, e' := Shifted(c, dt), Entry(e.key - dt, e.value);
    FiredState(book, c, mark, first, second, e, event, book', c');
    ShiftedMatches(live, book, c, dt, lost);
    ShiftedDistinct(book, c, mark, at, dt, e);
    assert After(live, WentOff(event.timer, event.count, first, second))
        == SetAnew(Lagged(live, lost), timer, event.count, second);
    hide *;
    WentOffReflects(Lagged(live, lost), book.(lost := book.lost + lost), d, e', c', second, event.count);
  }

  lemma FiredState(book: Book, c: seq<Timer>, mark: real, first: real, second: real, e: Timer, event: TimerEvent,
                   book': Book, c': seq<Timer>)
    requires Fired(book, c, mark, first, second, e, event, book', c')
    ensures e in c && event.timer == e.value.timer && e.value.timer in book.ledger
    ensures
      var e' := Entry(e.key - (first - mark), e.value);
      && book' == Noted(book.(lost := book.lost + (second - first)), e.value.timer, event.count, second)
      && multiset(c') == multiset(Shifted(c, first - mark)) - multiset{e'} + multiset(Again(e'))
  {
  }

  lemma ShiftedDistinct(book: Book, c: seq<Timer>, mark: real, at: real, dt: real, e: Timer)
    requires AllOnTime(book, c, mark, at) && e in c
    ensures DistinctTimers(Shifted(c, dt)) && Entry(e.key - dt, e.value) in Shifted(c, dt)
  {
    var i :| 0 <= i < |c| && c[i] == e;
    assert Shifted(c, dt)[i] == Entry(e.key - dt, e.value);
  }

  // ---------- Runs ----------

  datatype Op =
    | New(timer: TimerID, duration: real, target: Option<nat>, oneShot: bool, at: real)
    | Delete(timer: TimerID)
    | Check(first: real, second: real)

  /** What callers keep to: a new timer has a positive duration and an address of its own, and the clock does not go back. */
  predicate Proper(ops: seq<Op>, existing: set<TimerID>, now: real) {
    ops == [] ||
    match ops[0]
    case New(timer, duration, _, _, at) =>
      timer !in existing && duration > 0.0 && now <= at && Proper(ops[1..], existing + {timer}, at)
    case Delete(timer) => Proper(ops[1..], existing - {timer}, now)
    case Check(first, second) => now <= first <= second && Proper(ops[1..], existing, second)
  }

  predicate Answers(op: Op, h: Happening) {
    match op
    case New(timer, duration, target, oneShot, at) =>
      h == Created(TimerInfo(timer, duration, if target.None? then TheTimer(timer) else Object(target.value), oneShot), at)
    case Delete(timer) => h == Deleted(timer)
    case Check(first, second) => (h.WentOff? || h.Quiet?) && h.first == first && h.second == second
  }

  method Perform(q: EventTimers, op: Op, ghost live: Live, ghost now: real) returns (h: Happening)
    requires q.Valid() && Reflects(live, q.book, q.timerQueue.c) && q.time.history.at <= now
    requires Proper([op], q.timers, now)
    modifies q, q.time, q.timerQueue
    ensures q.Valid() && Answers(op, h) && Right(live, h)
    ensures Reflects(After(live, h), q.book, q.timerQueue.c)
    ensures InTime(h, now, Now([h], now)) && q.time.history.at <= Now([h], now)
    ensures q.timers == Existing(op, old(q.timers))
  {
    hide AllOnTime, Reflects, Fired, Waited, Right, IsHeap;
    ghost var book, c, mark, at0 := q.book, q.timerQueue.c, q.time.mark, q.time.history.at;
    match op
    case New(timer, duration, target, oneShot, at) =>
      WaitingExists(live, q, timer);
      q.NewTimer(timer, duration, target, oneShot, at);
      var info := TimerInfo(timer, duration, if target.None? then TheTimer(timer) else Object(target.value), oneShot);
      ghost var e: Timer :| e.value == info && multiset(q.timerQueue.c) == multiset(c) + multiset{e};
      CreatedReflects(live, book, c, e, q.timerQueue.c, at);
      h := Created(info, at);
      assert Right(live, h) by { NewIsRight(live, h); }
    case Delete(timer) =>
      q.DeleteTimer(timer);
      DeletedReflects(live, book, c, timer, q.timerQueue.c);
      h := Deleted(timer);
      assert Right(live, h) by { NewIsRight(live, h); }
    case Check(first, second) =>
      var fired, which := q.HasTimerExpired(first, second);
      if fired.None? {
        h := Quiet(first, second);
        QuietReflects(live, book, c, mark, at0, first, second, q.book, q.timerQueue.c);
      } else {
        h := WentOff(fired.value.timer, fired.value.count, first, second);
        FiredIsRight(live, book, c, mark, at0, first, second, which, fired.value, q.book, q.timerQueue.c);
        FiredReflects(live, book, c, mark, at0, first, second, which, fired.value, q.book, q.timerQueue.c);
      }
  }

  lemma NewIsRight(live: Live, h: Happening)
    requires h.Deleted? || (h.Created? && h.info.timer !in live && h.info.timeout > 0.0)
    ensures Right(live, h)
  {
  }

  lemma WaitingExists(live: Live, q: EventTimers, timer: TimerID)
    requires q.Valid() && Reflects(live, q.book, q.timerQueue.c)
    ensures timer in live ==> timer in q.timers
  {
    if timer in live {
      var e := Queued(live, q.book, q.timerQueue.c, timer);
      assert e.value.timer in q.timers;
    }
  }

  function Existing(op: Op, existing: set<TimerID>): set<TimerID> {
    match op
    case New(timer, _, _, _, _) => existing + {timer}
    case Delete(timer) => existing - {timer}
    case Check(_, _) => existing
  }

  lemma ProperStep(ops: seq<Op>, i: nat, existing: set<TimerID>, now: real)
    requires i < |ops| && Proper(ops[i..], existing, now)
    ensures Proper([ops[i]], existing, now)
    ensures forall h :: Answers(ops[i], h) ==> Proper(ops[i + 1..], Existing(ops[i], existing), Now([h], now))
  {
    assert ops[i..][1..] == ops[i + 1..];
    assert [ops[i]][1..] == [];
  }

  lemma LogStep(log: seq<Happening>, h: Happening, start: real)
    requires AllRight(log) && Clocked(log, start) && Right(LiveAfter(log), h)
    requires InTime(h, Now(log, start), Now([h], Now(log, start)))
    ensures AllRight(log + [h]) && Clocked(log + [h], start)
    ensures LiveAfter(log + [h]) == After(LiveAfter(log), h)
    ensures Now(log + [h], start) == Now([h], Now(log, start))
  {
    assert (log + [h])[..|log|] == log;
    assert [h][..0] == [];
  }

  /** In any run of the timers, what happens is what timers with absolute deadlines do. */
  method Run(ops: seq<Op>, start: real) returns (log: seq<Happening>)
    requires Proper(ops, {}, start)
    ensures |log| == |ops| && forall k :: 0 <= k < |ops| ==> Answers(ops[k], log[k])
    ensures AllRight(log) && Clocked(log, start)
  {
    hide AllOnTime, Reflects, Right, After, InTime, IsHeap, Answers, LiveAfter, AllRight, Clocked, Existing;
    var q := new EventTimers(start);
    log := [];
    NothingYet(q.book, start);
    for i := 0 to |ops|
      invariant fresh(q) && fresh(q.time) && fresh(q.timerQueue) && q.Valid() && |log| == i
      invariant forall k :: 0 <= k < i ==> Answers(ops[k], log[k])
      invariant AllRight(log) && Clocked(log, start) && q.time.history.at <= Now(log, start)
      invariant Proper(ops[i..], q.timers, Now(log, start))
      invariant Reflects(LiveAfter(log), q.book, q.timerQueue.c)
    {
      ProperStep(ops, i, q.timers, Now(log, start));
      var h := Perform(q, ops[i], LiveAfter(log), Now(log, start));
      LogStep(log, h, start);
      log := log + [h];
    }
  }

  lemma NothingYet(book: Book, start: real)
    ensures Reflects(LiveAfter([]), book, []) && AllRight([]) && Clocked([], start)
  {
  }
}
