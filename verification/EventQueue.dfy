/** The events of the event queue, which wait in a table under recycled ids while the buffer carries only the ids.
    Every method is one critical section, so any interleaving of threads is a sequence of calls. */
module EventQueues {
  import opened Options
  import opened SimpleEventQueueBuffers

  datatype EventType = UnknownEvent | Quit | System | TimerExpired | Other(number: nat)

  /** An event; `data` stands for whatever is handed over with it. */
  datatype Event = Event(kind: EventType, target: int, data: int, deliverImmediately: bool)

  datatype Outcome = Discarded | Dispatched | Queued

  // ---------- Event ids ----------

  const MAX_IDS: nat := 0x1_0000_0000

  predicate NoDuplicates(ids: seq<EventID>) {
    forall i, j :: 0 <= i < j < |ids| ==> ids[i] != ids[j]
  }

  /** The ids in use and the ids set aside are all ids below some number, each of them once. */
  predicate Partition(events: map<EventID, Event>, oldIDs: seq<EventID>) {
    && NoDuplicates(oldIDs)
    && (forall i :: 0 <= i < |oldIDs| ==> oldIDs[i] !in events)
    && (forall id: EventID :: id < |events| + |oldIDs| <==> id in events || id in oldIDs)
  }

  /** The id for the next event: one set aside last, else the number of events cut to 32 bits. */
  function ChosenID(events: map<EventID, Event>, oldIDs: seq<EventID>): EventID {
    if oldIDs != [] then oldIDs[|oldIDs| - 1] else |events| % MAX_IDS
  }

  /** No more than `n` numbers lie below `n`. */
  lemma {:induction false} FewBelow(ids: set<int>, n: nat)
    requires forall id :: id in ids ==> 0 <= id < n
    ensures |ids| <= n
  {
    if n > 0 {
      FewBelow(ids - {n - 1}, n - 1);
    } else {
      assert forall id: int :: id !in ids;
      assert |ids| == 0;
    }
  }

  lemma {:induction false} AsManyIDs(ids: seq<EventID>)
    requires NoDuplicates(ids)
    ensures |set id: int | id in ids| == |ids|
  {
    if ids == [] {
      assert (set id: int | id in ids) == {};
    } else {
      var last := |ids| - 1;
      AsManyIDs(ids[..last]);
      assert (set id: int | id in ids) == (set id: int | id in ids[..last]) + {ids[last]};
    }
  }

  /** There are 2^32 ids, so when all of them are in use none is set aside. */
  lemma PartitionFits(events: map<EventID, Event>, oldIDs: seq<EventID>)
    requires Partition(events, oldIDs)
    ensures |events| + |oldIDs| <= MAX_IDS
  {
    var used, aside := set id: int | id in events.Keys, set id: int | id in oldIDs;
    assert used == events.Keys;
    AsManyIDs(oldIDs);
    assert used * aside == {};
    FewBelow(used + aside, MAX_IDS);
  }

  /** The chosen id is free exactly as long as not all 2^32 of them are taken. */
  lemma ChosenIDIsFree(events: map<EventID, Event>, oldIDs: seq<EventID>)
    requires Partition(events, oldIDs)
    ensures ChosenID(events, oldIDs) !in events <==> |events| < MAX_IDS
  {
    PartitionFits(events, oldIDs);
  }

  lemma ReusePartition(events: map<EventID, Event>, rest: seq<EventID>, id: EventID, event: Event)
    requires Partition(events, rest + [id])
    ensures Partition(events[id := event], rest)
  {
    var oldIDs := rest + [id];
    assert oldIDs[|rest|] == id && forall i :: 0 <= i < |rest| ==> oldIDs[i] == rest[i];
    assert events[id := event].Keys == events.Keys + {id};
  }

  lemma AllBelow(events: map<EventID, Event>, id: EventID)
    requires Partition(events, [])
    ensures forall k: EventID :: k in events <==> k < |events|
  {
    forall k: EventID ensures k in events <==> k < |events| {
      assert k !in [];
    }
  }

  lemma ExtendPartition(events: map<EventID, Event>, id: EventID, event: Event)
    requires Partition(events, []) && id == |events|
    ensures Partition(events[id := event], [])
  {
    var more := events[id := event];
    AllBelow(events, id);
    assert more.Keys == events.Keys + {id};
    assert forall k: EventID :: k in more <==> k < |events| + 1;
  }

  /** Saving keeps the partition, even when it overwrites an event because all ids are taken. */
  lemma SavePartition(events: map<EventID, Event>, oldIDs: seq<EventID>, event: Event)
    requires Partition(events, oldIDs)
    ensures
      var rest := if oldIDs != [] then oldIDs[..|oldIDs| - 1] else [];
      Partition(events[ChosenID(events, oldIDs) := event], rest)
  {
    hide Partition;
    var id := ChosenID(events, oldIDs);
    PartitionFits(events, oldIDs);
    if oldIDs != [] {
      assert oldIDs == oldIDs[..|oldIDs| - 1] + [id];
      ReusePartition(events, oldIDs[..|oldIDs| - 1], id, event);
    } else if |events| < MAX_IDS {
      ExtendPartition(events, id, event);
    } else {
      OverwritePartition(events, id, event);
    }
  }

  lemma OverwritePartition(events: map<EventID, Event>, id: EventID, event: Event)
    requires Partition(events, []) && |events| == MAX_IDS
    ensures id in events && Partition(events[id := event], [])
  {
    AllBelow(events, id);
    assert events[id := event].Keys == events.Keys;
  }

  lemma RemovePartition(events: map<EventID, Event>, oldIDs: seq<EventID>, id: EventID)
    requires Partition(events, oldIDs) && id in events
    ensures Partition(events - {id}, oldIDs + [id])
  {
    assert (events - {id}).Keys == events.Keys - {id};
    assert |events - {id}| == |events| - 1 by {
      assert events.Keys == (events - {id}).Keys + {id};
    }
  }

  /** The table holds exactly the events of `ids`, each under its own id. */
  predicate Holds(events: map<EventID, Event>, ids: seq<EventID>) {
    NoDuplicates(ids) && forall id: EventID :: id in events <==> id in ids
  }

  /** The events of a sequence of ids. */
  function Lookup(events: map<EventID, Event>, ids: seq<EventID>): (r: seq<Event>)
    requires Holds(events, ids)
    ensures |r| == |ids| && forall i :: 0 <= i < |ids| ==> r[i] == events[ids[i]]
  {
    seq(|ids|, i requires 0 <= i < |ids| => events[ids[i]])
  }

  lemma HoldsOneMore(events: map<EventID, Event>, ids: seq<EventID>, id: EventID, event: Event)
    requires Holds(events, ids)
    ensures Holds(events[id := event], ids + [id]) <==> id !in events
    ensures id !in events ==> Lookup(events[id := event], ids + [id]) == Lookup(events, ids) + [event]
  {
    assert events[id := event].Keys == events.Keys + {id};
    if id in events {
      var i :| 0 <= i < |ids| && ids[i] == id;
      assert (ids + [id])[i] == (ids + [id])[|ids|];
    }
  }

  lemma HoldsAsMany(events: map<EventID, Event>, ids: seq<EventID>)
    requires Holds(events, ids)
    ensures |events| == |ids|
  {
    AsManyIDs(ids);
    assert events.Keys == set id: int | id in ids;
  }

  lemma HoldsOneLess(events: map<EventID, Event>, ids: seq<EventID>)
    requires Holds(events, ids) && ids != []
    ensures ids[0] in events && Holds(events - {ids[0]}, ids[1..])
    ensures Lookup(events, ids) == [events[ids[0]]] + Lookup(events - {ids[0]}, ids[1..])
  {
    var less, rest := events - {ids[0]}, ids[1..];
    assert NoDuplicates(rest);
    forall id: EventID ensures id in less <==> id in rest {
      if id in less {
        var i :| 0 <= i < |ids| && ids[i] == id;
        assert rest[i - 1] == id;
      }
      if i :| 0 <= i < |rest| && rest[i] == id {
        assert ids[i + 1] == id && ids[0] != ids[i + 1];
      }
    }
  }

  /** Events that move from one list to the next leave the whole the same. */
  lemma Regrouped(a: seq<Event>, b: seq<Event>, c: seq<Event>, e: Event)
    ensures a + ([e] + b) + c == (a + [e]) + b + c
    ensures a + b + ([e] + c) == a + (b + [e]) + c
  {
  }

  // ---------- Whole runs ----------

  /** A critical section of some thread. */
  datatype Step = Add(event: Event) | Ready | Take | Deliver

  /** The queue as one list of events, with neither ids nor buffer nor table. */
  datatype Fifo = Fifo(waiting: seq<Event>, ready: bool, inHand: bool, out: seq<Event>)

  predicate Accepts(event: Event) {
    event.kind !in {UnknownEvent, System, TimerExpired} && !event.deliverImmediately
  }

  function FifoStep(f: Fifo, step: Step): Fifo {
    match step
    case Add(event) => if Accepts(event) then f.(waiting := f.waiting + [event]) else f
    case Ready => f.(ready := true)
    case Take => if f.ready && f.waiting != [] then f.(inHand := true) else f
    case Deliver =>
      if f.inHand && f.waiting != [] then
        f.(waiting := f.waiting[1..], inHand := false, out := f.out + [f.waiting[0]])
      else f
  }

  /** The events that wait once the queue is ready can all have an id. */
  predicate Fits(f: Fifo) {
    f.ready ==> |f.waiting| <= MAX_IDS
  }

  lemma DeliverIsStep(accepted: seq<Event>, delivered: seq<Event>, rest: seq<Event>, e: Event, ready: bool)
    requires accepted == delivered + ([e] + rest)
    ensures delivered + [e] <= accepted && accepted[|delivered|] == e
    ensures FifoStep(Fifo(accepted[|delivered|..], ready, true, delivered), Deliver)
         == Fifo(accepted[|delivered + [e]|..], ready, false, delivered + [e])
  {
    assert accepted[|delivered|..] == [e] + rest;
    assert accepted[|delivered + [e]|..] == rest;
  }

  function FifoRun(steps: seq<Step>): Fifo {
    if steps == [] then Fifo([], false, false, []) else FifoStep(FifoRun(steps[..|steps| - 1]), steps[|steps| - 1])
  }

  function AcceptedIn(steps: seq<Step>): seq<Event> {
    if steps == [] then []
    else
      var last := steps[|steps| - 1];
      AcceptedIn(steps[..|steps| - 1]) + if last.Add? && Accepts(last.event) then [last.event] else []
  }

  /** Whatever the interleaving, what has come out and what still waits is all that was accepted, in order. */
  lemma {:induction false} FifoKeepsOrder(steps: seq<Step>)
    ensures FifoRun(steps).out + FifoRun(steps).waiting == AcceptedIn(steps)
    ensures FifoRun(steps).inHand ==> FifoRun(steps).waiting != [] && FifoRun(steps).ready
  {
    if steps != [] {
      FifoKeepsOrder(steps[..|steps| - 1]);
    }
  }

  /** A loop that takes events out `n` times. */
  function Loop(n: nat): seq<Step> {
    if n == 0 then [] else Loop(n - 1) + [Take] + [Deliver]
  }

  lemma FifoMore(steps: seq<Step>, step: Step)
    ensures FifoRun(steps + [step]) == FifoStep(FifoRun(steps), step)
  {
    assert (steps + [step])[..|steps|] == steps;
  }

  /** Once the queue is ready, all that waits comes out, one event a turn of the loop. */
  lemma {:induction false} LoopDelivers(steps: seq<Step>, n: nat)
    requires FifoRun(steps).ready && !FifoRun(steps).inHand && n <= |FifoRun(steps).waiting|
    ensures
      var before, after := FifoRun(steps), FifoRun(steps + Loop(n));
      && after.out == before.out + before.waiting[..n] && after.waiting == before.waiting[n..]
      && after.ready && !after.inHand
  {
    hide FifoRun;
    if n == 0 {
      assert steps + Loop(0) == steps;
    } else {
      var run := steps + Loop(n - 1);
      LoopDelivers(steps, n - 1);
      FifoMore(run, Take);
      FifoMore(run + [Take], Deliver);
      assert steps + Loop(n) == run + [Take] + [Deliver];
    }
  }

  class EventQueue {
    const buffer: SimpleEventQueueBuffer
    var events: map<EventID, Event>
    var oldEventIDs: seq<EventID>
    var ready: bool
    var pending: seq<Event>
    // the id that the loop has taken from the buffer and not yet looked up
    var taken: Option<EventID>

    // every event that was accepted, and every event that was delivered, in order
    ghost var accepted: seq<Event>
    ghost var delivered: seq<Event>

    constructor ()
      ensures ValidEvents() && fresh(buffer)
      ensures accepted == [] && delivered == [] && !ready && taken.None?
      ensures events == map[] && oldEventIDs == [] && pending == []
    {
      buffer := new SimpleEventQueueBuffer();
      events, oldEventIDs, ready, pending, taken := map[], [], false, [], None;
      accepted, delivered := [], [];
    }

    /** The ids of the events that are neither pending nor delivered, oldest first. */
    function InFlight(): seq<EventID>
      reads `taken, buffer
    {
      (if taken.Some? then [taken.value] else []) + buffer.Contents()
    }

    ghost predicate ValidIDs()
      reads `events, `oldEventIDs, `taken, buffer
    {
      && buffer.Valid()
      && Partition(events, oldEventIDs)
      && Holds(events, InFlight())
    }

    ghost predicate ValidEvents()
      reads `events, `oldEventIDs, `ready, `pending, `taken, `accepted, `delivered, buffer
    {
      && ValidIDs()
      && (ready ==> pending == [])
      && (!ready ==> InFlight() == [])
      && accepted == delivered + Lookup(events, InFlight()) + pending
    }

    /** The queue as one list of events. */
    ghost function Abstract(): Fifo
      reads `ready, `taken, `accepted, `delivered
      requires |delivered| <= |accepted|
    {
      Fifo(accepted[|delivered|..], ready, taken.Some?, delivered)
    }

    /** Saves under the chosen id, which overwrites an event exactly when all ids are in use. */
    method SaveEvent(event: Event) returns (id: EventID)
      requires Partition(events, oldEventIDs)
      modifies `events, `oldEventIDs
      ensures id == ChosenID(old(events), old(oldEventIDs)) && events == old(events)[id := event]
      ensures id in old(events) <==> old(|events|) == MAX_IDS
      ensures Partition(events, oldEventIDs)
    {
      hide Partition;
      SavePartition(events, oldEventIDs, event);
      ChosenIDIsFree(events, oldEventIDs);
      PartitionFits(events, oldEventIDs);
      if oldEventIDs != [] {
        id := oldEventIDs[|oldEventIDs| - 1];
        oldEventIDs := oldEventIDs[..|oldEventIDs| - 1];
      } else {
        id := |events| % MAX_IDS;
      }
      events := events[id := event];
    }

    method RemoveEvent(eventID: EventID) returns (event: Event)
      requires Partition(events, oldEventIDs)
      modifies `events, `oldEventIDs
      ensures eventID in old(events) ==> event == old(events)[eventID] && events == old(events) - {eventID}
      ensures eventID !in old(events) ==>
        event.kind == UnknownEvent && events == old(events) && oldEventIDs == old(oldEventIDs)
      ensures Partition(events, oldEventIDs)
    {
      if eventID !in events {
        return Event(UnknownEvent, 0, 0, false);
      }
      RemovePartition(events, oldEventIDs, eventID);
      event := events[eventID];
      events := events - {eventID};
      oldEventIDs := oldEventIDs + [eventID];
    }

    /** The event comes last of those in flight; with all ids in use it takes the place of another one. */
    method AddEventToBuffer(event: Event)
      requires buffer.Valid() && Partition(events, oldEventIDs)
      modifies `events, `oldEventIDs, buffer
      ensures buffer.Valid() && Partition(events, oldEventIDs)
      ensures events == old(events)[old(ChosenID(events, oldEventIDs)) := event]
      ensures InFlight() == old(InFlight()) + [old(ChosenID(events, oldEventIDs))]
      ensures old(ValidIDs()) ==> (Holds(events, InFlight()) <==> old(|events|) < MAX_IDS)
      ensures old(ValidIDs()) && old(|events|) < MAX_IDS ==>
        Lookup(events, InFlight()) == old(Lookup(events, InFlight())) + [event]
    {
      hide Partition, Holds, Lookup, NoDuplicates, ChosenID;
      ghost var ids, before := InFlight(), events;
      PartitionFits(events, oldEventIDs);
      if Holds(events, ids) {
        HoldsOneMore(events, ids, ChosenID(events, oldEventIDs), event);
      }
      var id := SaveEvent(event);
      var ok := buffer.AddEvent(id);
      assert InFlight() == ids + [id];
    }

    /** There is no room for more than 2^32 events in the table. */
    lemma HeldFits()
      requires Partition(events, oldEventIDs)
      ensures Holds(events, InFlight()) ==> |events| == |InFlight()| <= MAX_IDS
    {
      if Holds(events, InFlight()) {
        HoldsAsMany(events, InFlight());
        PartitionFits(events, oldEventIDs);
      }
    }

    lemma Sizes()
      requires ValidEvents()
      ensures |accepted| == |delivered| + |InFlight()| + |pending|
      ensures |events| == |InFlight()| <= MAX_IDS
      ensures Fits(Abstract())
    {
      HeldFits();
    }

    /** Adds an event to the end of the queue, unless it is bogus or wants to be delivered at once. */
    method AddEvent(event: Event) returns (outcome: Outcome)
      requires ValidEvents()
      modifies `events, `oldEventIDs, `pending, `accepted, buffer
      ensures outcome ==
        if event.kind in {UnknownEvent, System, TimerExpired} then Discarded
        else if event.deliverImmediately then Dispatched else Queued
      ensures accepted == if outcome == Queued then old(accepted) + [event] else old(accepted)
      ensures |delivered| <= |accepted| && Abstract() == FifoStep(old(Abstract()), Add(event))
      ensures buffer.Valid() && Partition(events, oldEventIDs)
      ensures Fits(Abstract()) <==> Holds(events, InFlight())
      ensures Fits(Abstract()) ==> ValidEvents()
    {
      hide Partition, Holds, Lookup, NoDuplicates, ChosenID;
      Sizes();
      match event.kind {
        case UnknownEvent => return Discarded;
        case System => return Discarded;
        case TimerExpired => return Discarded;
        case _ =>
      }
      if event.deliverImmediately {
        return Dispatched;
      }
      if !ready {
        pending := pending + [event];
      } else {
        AddEventToBuffer(event);
      }
      accepted := accepted + [event];
      outcome := Queued;
    }

    /** The start of loop(): from now on events go to the buffer, those that are pending first. */
    method BecomeReady()
      requires ValidEvents()
      modifies `events, `oldEventIDs, `ready, `pending, buffer
      ensures ready && pending == []
      ensures |delivered| <= |accepted| && Abstract() == FifoStep(old(Abstract()), Ready)
      ensures buffer.Valid() && Partition(events, oldEventIDs)
      ensures Fits(Abstract()) <==> Holds(events, InFlight())
      ensures Fits(Abstract()) ==> ValidEvents()
    {
      hide Partition, Holds, Lookup, NoDuplicates, ChosenID;
      Sizes();
      ready := true;
      ghost var waiting := |accepted| - |delivered|;
      while pending != []
        invariant buffer.Valid() && Partition(events, oldEventIDs) && ready
        invariant |InFlight()| + |pending| == waiting
        invariant Holds(events, InFlight()) ==> accepted == delivered + Lookup(events, InFlight()) + pending
        invariant Holds(events, InFlight()) <==> |InFlight()| <= MAX_IDS
      {
        var event := pending[0];
        assert pending == [event] + pending[1..];
        HeldFits();
        if Holds(events, InFlight()) {
          Regrouped(delivered, Lookup(events, InFlight()), pending[1..], event);
        }
        AddEventToBuffer(event);
        pending := pending[1..];
        HeldFits();
      }
    }

    /** The first half of taking an event out: its id leaves the buffer. */
    method TakeID() returns (found: bool)
      requires ValidEvents() && taken.None?
      modifies `taken, buffer
      ensures ValidEvents()
      ensures found <==> old(buffer.Contents()) != []
      ensures taken == if found then Some(old(buffer.Contents())[0]) else None
      ensures Abstract() == FifoStep(old(Abstract()), Take)
    {
      hide Partition, Holds, Lookup, NoDuplicates;
      Sizes();
      ghost var ids := InFlight();
      var empty := buffer.IsEmpty();
      if empty {
        return false;
      }
      var e := buffer.GetEvent();
      taken := Some(e.dataID);
      found := true;
      assert InFlight() == ids;
    }

    /** The second half: the event leaves the table.  It is the oldest one not yet delivered. */
    method DeliverTaken() returns (event: Event)
      requires ValidEvents() && taken.Some?
      modifies `events, `oldEventIDs, `taken, `delivered
      ensures ValidEvents() && taken.None?
      ensures |old(delivered)| < |accepted| && event == accepted[|old(delivered)|]
      ensures delivered == old(delivered) + [event] && delivered <= accepted
      ensures Abstract() == FifoStep(old(Abstract()), Deliver)
      ensures |events| <= old(|events|)
    {
      hide Partition, Holds, Lookup, NoDuplicates, FifoStep;
      ghost var ids := InFlight();
      assert ids[0] == taken.value;
      HoldsOneLess(events, ids);
      Regrouped(delivered, Lookup(events - {ids[0]}, ids[1..]), pending, events[ids[0]]);
      DeliverIsStep(accepted, delivered, Lookup(events - {ids[0]}, ids[1..]) + pending, events[ids[0]], ready);
      event := RemoveEvent(taken.value);
      taken := None;
      delivered := delivered + [event];
      assert InFlight() == ids[1..];
    }

    lemma TakenIsWaiting()
      requires ValidEvents() && taken.Some?
      ensures Abstract() == FifoStep(Abstract(), Take)
    {
      Sizes();
    }

    lemma NothingInHand()
      requires ValidEvents() && taken.None?
      ensures Abstract() == FifoStep(Abstract(), Deliver)
    {
    }

    /** One critical section of any thread does to the queue what it does to the single list, and each event keeps an
        id of its own exactly as long as those that wait fit the ids. */
    method Perform(step: Step) returns (got: seq<Event>)
      requires ValidEvents()
      modifies `events, `oldEventIDs, `ready, `pending, `taken, `accepted, `delivered, buffer
      ensures |delivered| <= |accepted| && Abstract() == FifoStep(old(Abstract()), step)
      ensures delivered == old(delivered) + got
      ensures Partition(events, oldEventIDs) && (Fits(Abstract()) <==> Holds(events, InFlight()))
      ensures Fits(Abstract()) ==> ValidEvents()
    {
      hide Partition, Holds, Lookup, NoDuplicates, FifoStep;
      Sizes();
      got := [];
      match step {
        case Add(event) =>
          var outcome := AddEvent(event);
        case Ready =>
          BecomeReady();
        case Take =>
          if taken.None? {
            var found := TakeID();
          } else {
            TakenIsWaiting();
          }
          Sizes();
        case Deliver =>
          if taken.Some? {
            var event := DeliverTaken();
            got := [event];
          } else {
            NothingInHand();
          }
          Sizes();
      }
    }
  }

  /** All that waits after any of the first `n` steps fits the ids. */
  predicate FitsUntil(steps: seq<Step>, n: nat)
    requires n <= |steps| + 1
  {
    forall k :: 0 <= k < n ==> Fits(FifoRun(steps[..k]))
  }

  /** Takes a new queue through all steps, of which only the last may be one too many; `out` is what it delivers. */
  method Drive(steps: seq<Step>) returns (q: EventQueue, out: seq<Event>)
    requires FitsUntil(steps, |steps|)
    ensures fresh(q) && |q.delivered| <= |q.accepted| && q.Abstract() == FifoRun(steps) && out == FifoRun(steps).out
    ensures Partition(q.events, q.oldEventIDs)
    ensures Fits(FifoRun(steps)) <==> Holds(q.events, q.InFlight())
    ensures Fits(FifoRun(steps)) ==> q.ValidEvents()
  {
    hide FifoStep, AcceptedIn, Partition, Holds, Lookup, NoDuplicates, Fits;
    q := new EventQueue();
    out := [];
    q.Sizes();
    for i := 0 to |steps|
      invariant fresh(q) && fresh(q.buffer) && |q.delivered| <= |q.accepted|
      invariant q.Abstract() == FifoRun(steps[..i]) && q.delivered == out
      invariant Partition(q.events, q.oldEventIDs) && (Fits(q.Abstract()) <==> Holds(q.events, q.InFlight()))
      invariant Fits(q.Abstract()) ==> q.ValidEvents()
    {
      assert steps[..i + 1][..i] == steps[..i];
      var got := q.Perform(steps[i]);
      out := out + got;
    }
    assert steps[..|steps|] == steps;
  }

  /** In any run, however long, the event queue delivers what the single list delivers, a prefix of what was accepted,
      as long as what waits fits the ids. */
  method Run(steps: seq<Step>) returns (out: seq<Event>)
    requires FitsUntil(steps, |steps|)
    ensures out == FifoRun(steps).out
    ensures out <= AcceptedIn(steps)
  {
    var q;
    q, out := Drive(steps);
    FifoKeepsOrder(steps);
  }

  /** In any run, the ids in use and set aside are all ids below some number, each of them once.  Up to the first step
      that leaves more events waiting than there are ids, and not after it, the ids in flight are those in use, each of
      them once; then their events and the pending ones are exactly those that wait. */
  method IDsAfter(steps: seq<Step>)
    returns (events: map<EventID, Event>, oldIDs: seq<EventID>, inFlight: seq<EventID>, pending: seq<Event>)
    requires FitsUntil(steps, |steps|)
    ensures Partition(events, oldIDs)
    ensures Holds(events, inFlight) <==> Fits(FifoRun(steps))
    ensures Fits(FifoRun(steps)) ==> Lookup(events, inFlight) + pending == FifoRun(steps).waiting
    ensures Fits(FifoRun(steps)) && FifoRun(steps).ready ==> pending == []
    ensures Fits(FifoRun(steps)) && FifoRun(steps).inHand ==> inFlight != []
  {
    hide FifoStep, FifoRun, Partition;
    var q, out := Drive(steps);
    events, oldIDs, inFlight, pending := q.events, q.oldEventIDs, q.InFlight(), q.pending;
  }

  /** A queue that is ready and gets the same event `n` times. */
  function Adds(event: Event, n: nat): (steps: seq<Step>)
    ensures |steps| == n + 1
  {
    if n == 0 then [Ready] else Adds(event, n - 1) + [Add(event)]
  }

  lemma {:induction false} AddsWait(event: Event, n: nat)
    requires Accepts(event)
    ensures FifoRun(Adds(event, n)).ready && |FifoRun(Adds(event, n)).waiting| == n
  {
    if n > 0 {
      AddsWait(event, n - 1);
      assert Adds(event, n)[..n] == Adds(event, n - 1);
    }
  }

  lemma {:induction false} AddsPrefix(event: Event, n: nat, k: nat)
    requires k <= n
    ensures Adds(event, n)[..k + 1] == Adds(event, k)
  {
    if k < n {
      AddsPrefix(event, n - 1, k);
      assert Adds(event, n)[..k + 1] == Adds(event, n - 1)[..k + 1];
    }
  }

  /** Any event that is accepted can be added once too often: there are runs whose last step is the first to leave more
      events waiting than there are ids. */
  lemma Overflows(event: Event) returns (steps: seq<Step>)
    requires Accepts(event)
    ensures FitsUntil(steps, |steps|) && !Fits(FifoRun(steps))
  {
    var n := MAX_IDS + 1;
    steps := Adds(event, n);
    AddsWait(event, n);
    hide Adds, Fits;
    forall k | 0 <= k < |steps| ensures Fits(FifoRun(steps[..k])) {
      if k > 0 {
        AddsPrefix(event, n, k - 1);
        AddsWait(event, k - 1);
        FewFit(FifoRun(Adds(event, k - 1)));
      } else {
        FewFit(FifoRun([]));
      }
    }
    ManyDoNotFit(FifoRun(steps));
  }

  lemma FewFit(f: Fifo)
    ensures |f.waiting| <= MAX_IDS ==> Fits(f)
  {
  }

  lemma ManyDoNotFit(f: Fifo)
    ensures f.ready && |f.waiting| > MAX_IDS ==> !Fits(f)
  {
  }
}
