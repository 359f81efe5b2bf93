/** The buffer under the event queue: a queue of event ids, newest at the front of a deque. */
module SimpleEventQueueBuffers {

  // uint32_t
  type EventID = id: int | 0 <= id < 0x1_0000_0000

  datatype BufferEvent = Unknown | User(dataID: EventID)

  function Reversed(s: seq<EventID>): (r: seq<EventID>)
    ensures |r| == |s| && forall i :: 0 <= i < |s| ==> r[i] == s[|s| - 1 - i]
  {
    if s == [] then [] else Reversed(s[1..]) + [s[0]]
  }

  class SimpleEventQueueBuffer {
    var queueReady: bool
    var queue: seq<EventID>

    predicate Valid()
      reads this
    {
      queueReady <==> queue != []
    }

    /** The ids in the order in which they will be taken out. */
    function Contents(): seq<EventID>
      reads this`queue
    {
      Reversed(queue)
    }

    constructor ()
      ensures Valid() && Contents() == []
    {
      queueReady, queue := false, [];
    }

    method GetEvent() returns (event: BufferEvent)
      requires Valid()
      modifies this
      ensures Valid()
      ensures old(Contents()) == [] ==> event == Unknown && Contents() == []
      ensures old(Contents()) != [] ==> event == User(old(Contents())[0]) && Contents() == old(Contents())[1..]
    {
      if !queueReady {
        return Unknown;
      }
      event := User(queue[|queue| - 1]);
      queue := queue[..|queue| - 1];
      queueReady := queue != [];
    }

    method AddEvent(dataID: EventID) returns (ok: bool)
      requires Valid()
      modifies this
      ensures Valid() && ok && Contents() == old(Contents()) + [dataID]
    {
      queue := [dataID] + queue;
      if !queueReady {
        queueReady := true;
      }
      ok := true;
    }

    method IsEmpty() returns (empty: bool)
      requires Valid()
      ensures empty <==> Contents() == []
    {
      empty := !queueReady;
    }
  }
}
