/** The client with its fields and the table of registered event handlers, on a plain-text connection.
    Every call, lookup result and event does to it what the automaton of ClientSpec does. */
module Clients {
  import opened Options
  import opened ClientSpec

  datatype Handler =
    | OnConnected | OnConnectionFailed | OnDisconnected | OnHello | OnServerData | OnOutputError
    | OnSuspend | OnResume | OnShapeChanged | OnClipboardGrabbed | OnTimeout

  type Key = (Target, Kind)

  type HandlerTable = map<Key, Handler>

  // ---------- The handlers that belong to a connection ----------

  const SUSPEND: Key := (TheScreen, ScreenSuspend)
  const RESUME: Key := (TheScreen, ScreenResume)
  const SHAPE: Key := (TheScreen, ScreenShapeChanged)
  const GRABBED: Key := (TheScreen, ClipboardGrabbed)

  function ClientHandlers(alive: bool): HandlerTable {
    if alive then map[SUSPEND := OnSuspend, RESUME := OnResume] else map[]
  }

  function TimerHandlers(timer: nat): HandlerTable {
    map[(Timer(timer), TimerFired) := OnTimeout]
  }

  function ConnectingHandlers(stream: nat): HandlerTable {
    map[(Stream(stream), DataSocketConnected) := OnConnected,
        (Stream(stream), DataSocketConnectionFailed) := OnConnectionFailed]
  }

  function ConnectionHandlers(stream: nat, onInput: Handler): HandlerTable {
    map[(Stream(stream), SocketDisconnected) := OnDisconnected,
        (Stream(stream), StreamInputReady) := onInput,
        (Stream(stream), StreamOutputError) := OnOutputError,
        (Stream(stream), StreamInputShutdown) := OnDisconnected,
        (Stream(stream), StreamOutputShutdown) := OnDisconnected]
  }

  function ScreenHandlers(): HandlerTable {
    map[SHAPE := OnShapeChanged, GRABBED := OnClipboardGrabbed]
  }

  /** Exactly the handlers that are registered in each state of the connection. */
  function HandlersOf(link: Link, alive: bool): HandlerTable {
    ClientHandlers(alive) + LinkHandlers(link)
  }

  function LinkHandlers(link: Link): HandlerTable {
    match link
    case Idle => map[]
    case Connecting(stream, timer) => ConnectingHandlers(stream) + TimerHandlers(timer)
    case Greeting(stream, timer) => ConnectionHandlers(stream, OnHello) + TimerHandlers(timer)
    case Serving(stream) => ConnectionHandlers(stream, OnServerData) + ScreenHandlers()
  }

  function TimerKeys(link: Link): set<Key> {
    if TimerOf(link).Some? then {(Timer(TimerOf(link).value), TimerFired)} else {}
  }

  function ProxyKeys(link: Link): set<Key> {
    if link.Serving? then {SHAPE, GRABBED, (Stream(link.stream), StreamInputReady)} else {}
  }

  function ConnectingKeys(link: Link): set<Key> {
    if link.Idle? then {} else ConnectingHandlers(link.stream).Keys
  }

  function ConnectionKeys(link: Link): set<Key> {
    if link.Idle? then {} else ConnectionHandlers(link.stream, OnHello).Keys
  }

  /** Taking away all handlers of a connection, and none of the client itself, leaves those of no connection.
      The screen handlers are only there when a proxy is, and those of connecting only until it has come about. */
  lemma TakenAway(link: Link, alive: bool)
    ensures HandlersOf(link, alive) - TimerKeys(link) - ProxyKeys(link) - ConnectingKeys(link) - ConnectionKeys(link)
         == HandlersOf(Idle, alive)
    ensures !link.Serving? ==>
      HandlersOf(link, alive) - TimerKeys(link) - ConnectingKeys(link) - ConnectionKeys(link) == HandlersOf(Idle, alive)
    ensures link.Connecting? ==>
      HandlersOf(link, alive) - TimerKeys(link) - ConnectingKeys(link) == HandlersOf(Idle, alive)
    ensures !link.Connecting? ==>
      HandlersOf(link, alive) - TimerKeys(link) - ProxyKeys(link) - ConnectionKeys(link) == HandlersOf(Idle, alive)
    ensures link.Greeting? ==>
      HandlersOf(link, alive) - TimerKeys(link) - ConnectionKeys(link) == HandlersOf(Idle, alive)
  {
    hide HandlersOf, TimerKeys, ProxyKeys, ConnectingKeys, ConnectionKeys;
    var h := HandlersOf(link, alive);
    var timer, proxy, connecting, connection :=
      TimerKeys(link), ProxyKeys(link), ConnectingKeys(link), ConnectionKeys(link);
    KeysBelong(link);
    TakenInTurn(link, alive, timer, proxy, connecting, connection);
    if !link.Serving? {
      TakenInTurn(link, alive, timer, {}, connecting, connection);
      MinusNothing(h - timer);
    }
    if link.Connecting? {
      TakenInTurn(link, alive, timer, connecting, {}, {});
      MinusNothing(h - timer - connecting);
    }
    if !link.Connecting? {
      TakenInTurn(link, alive, timer, proxy, connection, {});
      MinusNothing(h - timer - proxy - connection);
    }
    if link.Greeting? {
      TakenInTurn(link, alive, timer, connection, {}, {});
      MinusNothing(h - timer - connection);
    }
  }

  /** The handlers of a connection are among those that each way of taking it down removes. */
  predicate Covered(link: Link) {
    var own := LinkHandlers(link).Keys;
    var timer, proxy, connecting, connection :=
      TimerKeys(link), ProxyKeys(link), ConnectingKeys(link), ConnectionKeys(link);
    && {SUSPEND, RESUME} !! timer + proxy + connecting + connection
    && own <= timer + proxy + connecting + connection
    && (!link.Serving? ==> own <= timer + connecting + connection)
    && (link.Connecting? ==> own <= timer + connecting)
    && (!link.Connecting? ==> own <= timer + proxy + connection)
    && (link.Greeting? ==> own <= timer + connection)
  }

  lemma ConnectingCovered(stream: nat, timer: nat)
    ensures Covered(Connecting(stream, timer))
  {
  }

  lemma GreetingCovered(stream: nat, timer: nat)
    ensures Covered(Greeting(stream, timer))
  {
  }

  lemma ServingCovered(stream: nat)
    ensures Covered(Serving(stream))
  {
  }

  lemma KeysBelong(link: Link)
    ensures Covered(link)
  {
    match link
    case Idle =>
    case Connecting(stream, timer) => ConnectingCovered(stream, timer);
    case Greeting(stream, timer) => GreetingCovered(stream, timer);
    case Serving(stream) => ServingCovered(stream);
  }

  lemma TakenInTurn(link: Link, alive: bool, one: set<Key>, two: set<Key>, three: set<Key>, four: set<Key>)
    requires {SUSPEND, RESUME} !! one + two + three + four
    requires LinkHandlers(link).Keys <= one + two + three + four
    ensures HandlersOf(link, alive) - one - two - three - four == HandlersOf(Idle, alive)
  {
    hide LinkHandlers;
    var h := HandlersOf(link, alive);
    OwnKeys(link, alive, one + two + three + four);
    MinusMinus(h, one, two);
    MinusMinus(h, one + two, three);
    MinusMinus(h, one + two + three, four);
  }

  lemma OwnKeys(link: Link, alive: bool, keys: set<Key>)
    requires {SUSPEND, RESUME} !! keys && LinkHandlers(link).Keys <= keys
    ensures HandlersOf(link, alive) - keys == HandlersOf(Idle, alive)
  {
    assert LinkHandlers(Idle) == map[];
    hide LinkHandlers;
    var a, b := ClientHandlers(alive), LinkHandlers(link);
    assert SUSPEND !in keys && RESUME !in keys;
    assert a.Keys !! keys;
    DropAll(a, b, keys);
    assert a + map[] == a;
  }

  lemma DropAll(a: HandlerTable, b: HandlerTable, keys: set<Key>)
    requires a.Keys !! keys && b.Keys <= keys
    ensures a + b - keys == a
  {
  }

  lemma MinusMinus(h: HandlerTable, a: set<Key>, b: set<Key>)
    ensures h - a - b == h - (a + b)
  {
  }

  lemma MinusNothing(h: HandlerTable)
    ensures h - {} == h
  {
  }

  lemma TurnsConnecting(alive: bool, stream: nat, timer: nat)
    ensures HandlersOf(Idle, alive) + ConnectingHandlers(stream) + TimerHandlers(timer)
         == HandlersOf(Connecting(stream, timer), alive)
  {
  }

  lemma TurnsGreeting(alive: bool, stream: nat, timer: nat)
    ensures HandlersOf(Connecting(stream, timer), alive) - ConnectingHandlers(stream).Keys
         + ConnectionHandlers(stream, OnHello) == HandlersOf(Greeting(stream, timer), alive)
  {
    assert HandlersOf(Connecting(stream, timer), alive) - ConnectingHandlers(stream).Keys
        == ClientHandlers(alive) + TimerHandlers(timer);
    Reorder(ClientHandlers(alive), TimerHandlers(timer), ConnectionHandlers(stream, OnHello));
  }

  /** Tables without a common key can be put together in any order. */
  lemma Reorder(a: HandlerTable, b: HandlerTable, c: HandlerTable)
    requires b.Keys !! c.Keys
    ensures a + b + c == a + (c + b)
  {
  }

  lemma TurnsServing(alive: bool, stream: nat, timer: nat)
    ensures HandlersOf(Greeting(stream, timer), alive)[(Stream(stream), StreamInputReady) := OnServerData]
         + ScreenHandlers() - {(Timer(timer), TimerFired)} == HandlersOf(Serving(stream), alive)
  {
    var a, b, c, d := ClientHandlers(alive), ConnectionHandlers(stream, OnHello), TimerHandlers(timer), ScreenHandlers();
    var b' := ConnectionHandlers(stream, OnServerData);
    var key: Key := (Stream(stream), StreamInputReady);
    assert b[key := OnServerData] == b' && key !in c.Keys && key in b.Keys;
    assert c.Keys == {(Timer(timer), TimerFired)} && c.Keys !! a.Keys && c.Keys !! b'.Keys && c.Keys !! d.Keys;
    hide *;
    UpdateInside(a, b, c, key, OnServerData);
    DropLast(a, b', c, d);
  }

  lemma AddedOneByOne(h: HandlerTable, stream: nat, onInput: Handler)
    ensures h[(Stream(stream), SocketDisconnected) := OnDisconnected][(Stream(stream), StreamInputReady) := onInput]
             [(Stream(stream), StreamOutputError) := OnOutputError][(Stream(stream), StreamInputShutdown) := OnDisconnected]
             [(Stream(stream), StreamOutputShutdown) := OnDisconnected]
         == h + ConnectionHandlers(stream, onInput)
  {
    var one: HandlerTable := map[(Stream(stream), SocketDisconnected) := OnDisconnected];
    var two := one[(Stream(stream), StreamInputReady) := onInput];
    var three := two[(Stream(stream), StreamOutputError) := OnOutputError];
    var four := three[(Stream(stream), StreamInputShutdown) := OnDisconnected];
    AddInside(h, map[], (Stream(stream), SocketDisconnected), OnDisconnected);
    assert h + map[] == h;
    AddInside(h, one, (Stream(stream), StreamInputReady), onInput);
    AddInside(h, two, (Stream(stream), StreamOutputError), OnOutputError);
    AddInside(h, three, (Stream(stream), StreamInputShutdown), OnDisconnected);
    AddInside(h, four, (Stream(stream), StreamOutputShutdown), OnDisconnected);
  }

  lemma AddInside(h: HandlerTable, more: HandlerTable, key: Key, handler: Handler)
    ensures (h + more)[key := handler] == h + more[key := handler]
  {
  }

  lemma UpdateInside(a: HandlerTable, b: HandlerTable, c: HandlerTable, key: Key, h: Handler)
    requires key !in c
    ensures (a + (b + c))[key := h] == a + (b[key := h] + c)
  {
  }

  lemma DropLast(a: HandlerTable, b: HandlerTable, c: HandlerTable, d: HandlerTable)
    requires c.Keys !! a.Keys && c.Keys !! b.Keys && c.Keys !! d.Keys
    ensures a + (b + c) + d - c.Keys == a + (b + d)
  {
  }

  class Client {
    var stream: Option<nat>
    var timer: Option<nat>
    // the server proxy, by the stream that it serves
    var server: Option<nat>
    var ready: bool
    var suspended: bool
    var connectOnResume: bool
    var resolveGeneration: nat
    var alive: bool
    // the server address names a host that has to be looked up
    var hasHostname: bool

    // what the client relies on: the handlers registered with the event queue, the lookups under way,
    // whether the screen is enabled, the events sent, and the number of the next object
    var handlers: HandlerTable
    var lookups: set<nat>
    var screenEnabled: bool
    var sent: seq<Notice>
    var nextId: nat

    ghost var state: State

    /** The objects and the handlers are those of a connection. */
    ghost predicate Tied(link: Link)
      reads `stream, `timer, `server, `handlers, `alive
    {
      && stream == StreamOf(link) && timer == TimerOf(link)
      && server == (if link.Serving? then stream else None)
      && handlers == HandlersOf(link, alive)
    }

    /** The fields and the table of handlers are those of the state. */
    ghost predicate Valid()
      reads this
    {
      && Tied(state.link)
      && (alive || state.link == Idle)
      && state.hasHostname == hasHostname && state.ready == ready && state.screenEnabled == screenEnabled
      && state.suspended == suspended && state.connectOnResume == connectOnResume
      && state.generation == resolveGeneration && state.lookups == lookups
      && state.alive == alive && state.nextId == nextId && state.sent == sent
    }

    constructor (hasHostname: bool)
      ensures Valid() && state == Start(hasHostname)
    {
      this.hasHostname := hasHostname;
      stream, timer, server := None, None, None;
      ready, suspended, connectOnResume, alive, screenEnabled := false, false, false, true, false;
      resolveGeneration, lookups, nextId, sent := 0, {}, 0, [];
      handlers := map[SUSPEND := OnSuspend, RESUME := OnResume];
      state := Start(hasHostname);
    }

    // ---------- Setting up and taking down ----------

    method SetupConnecting()
      requires stream.Some?
      modifies `handlers
      ensures handlers == old(handlers) + ConnectingHandlers(stream.value)
    {
      assert stream != None;
      handlers := handlers[(Stream(stream.value), DataSocketConnected) := OnConnected];
      handlers := handlers[(Stream(stream.value), DataSocketConnectionFailed) := OnConnectionFailed];
    }

    method SetupConnection()
      requires stream.Some?
      modifies `handlers
      ensures handlers == old(handlers) + ConnectionHandlers(stream.value, OnHello)
    {
      assert stream != None;
      ghost var before := handlers;
      handlers := handlers[(Stream(stream.value), SocketDisconnected) := OnDisconnected];
      handlers := handlers[(Stream(stream.value), StreamInputReady) := OnHello];
      handlers := handlers[(Stream(stream.value), StreamOutputError) := OnOutputError];
      handlers := handlers[(Stream(stream.value), StreamInputShutdown) := OnDisconnected];
      handlers := handlers[(Stream(stream.value), StreamOutputShutdown) := OnDisconnected];
      AddedOneByOne(before, stream.value, OnHello);
    }

    /** The new proxy takes over the input of the stream. */
    method SetupScreen()
      requires stream.Some? && server.None?
      modifies `handlers, `ready, `server
      ensures !ready && server == stream
      ensures handlers == old(handlers)[(Stream(stream.value), StreamInputReady) := OnServerData] + ScreenHandlers()
    {
      assert server == None;
      ready := false;
      server := stream;
      handlers := handlers[(Stream(stream.value), StreamInputReady) := OnServerData];
      handlers := handlers[SHAPE := OnShapeChanged];
      handlers := handlers[GRABBED := OnClipboardGrabbed];
    }

    method SetupTimer()
      requires timer.None?
      modifies `handlers, `timer, `nextId
      ensures timer == Some(old(nextId)) && nextId == old(nextId) + 1
      ensures handlers == old(handlers) + TimerHandlers(old(nextId))
    {
      assert timer == None;
      timer := Some(nextId);
      nextId := nextId + 1;
      handlers := handlers[(Timer(timer.value), TimerFired) := OnTimeout];
    }

    method CleanupTimer()
      modifies `handlers, `timer
      ensures timer == None
      ensures handlers == old(handlers) - if old(timer).Some? then {(Timer(old(timer).value), TimerFired)} else {}
    {
      if timer != None {
        handlers := handlers - {(Timer(timer.value), TimerFired)};
        timer := None;
      }
    }

    /** Deleting the proxy takes its handler off the stream; without a proxy nothing happens. */
    method CleanupScreen()
      modifies `handlers, `server, `ready, `screenEnabled
      ensures server == None
      ensures ready == (old(ready) && old(server).None?)
      ensures screenEnabled == (old(screenEnabled) && !(old(ready) && old(server).Some?))
      ensures handlers == old(handlers)
        - if old(server).Some? then {SHAPE, GRABBED, (Stream(old(server).value), StreamInputReady)} else {}
    {
      if server != None {
        if ready {
          screenEnabled := false;
          ready := false;
        }
        handlers := handlers - {SHAPE};
        handlers := handlers - {GRABBED};
        handlers := handlers - {(Stream(server.value), StreamInputReady)};
        server := None;
      }
    }

    method CleanupConnecting()
      modifies `handlers
      ensures handlers == old(handlers) - if stream.Some? then ConnectingHandlers(stream.value).Keys else {}
    {
      if stream != None {
        handlers := handlers - {(Stream(stream.value), DataSocketConnected)};
        handlers := handlers - {(Stream(stream.value), DataSocketConnectionFailed)};
      }
    }

    method CleanupConnection()
      modifies `handlers, `stream
      ensures stream == None
      ensures handlers == old(handlers)
        - if old(stream).Some? then ConnectionHandlers(old(stream).value, OnHello).Keys else {}
    {
      if stream != None {
        handlers := handlers - {(Stream(stream.value), StreamInputReady)};
        handlers := handlers - {(Stream(stream.value), StreamOutputError)};
        handlers := handlers - {(Stream(stream.value), StreamInputShutdown)};
        handlers := handlers - {(Stream(stream.value), StreamOutputShutdown)};
        handlers := handlers - {(Stream(stream.value), SocketDisconnected)};
        CleanupStream();
      }
    }

    method CleanupStream()
      modifies `stream
      ensures stream == None
    {
      stream := None;
    }

    /** Takes everything down. */
    method TakeDown(ghost link: Link)
      requires Tied(link)
      modifies `handlers, `stream, `timer, `server, `ready, `screenEnabled
      ensures Tied(Idle)
      ensures ready == (old(ready) && !link.Serving?)
      ensures screenEnabled == (old(screenEnabled) && !(old(ready) && link.Serving?))
    {
      hide HandlersOf, ConnectingHandlers, ConnectionHandlers;
      ghost var before := handlers;
      CleanupTimer();
      assert handlers == before - TimerKeys(link);
      CleanupScreen();
      assert handlers == before - TimerKeys(link) - ProxyKeys(link);
      CleanupConnecting();
      assert handlers == before - TimerKeys(link) - ProxyKeys(link) - ConnectingKeys(link);
      CleanupConnection();
      TakenAway(link, alive);
    }

    /** Takes everything down, and forgets lookups under way and the wish to be connected on resuming. */
    method Cleanup()
      requires Valid()
      modifies `handlers, `stream, `timer, `server, `ready, `screenEnabled, `resolveGeneration, `connectOnResume, `state
      ensures Valid() && state == Cleaned(old(state))
    {
      hide Valid, HandlersOf;
      ForgetLookups();
      SetConnectOnResume(false);
      TakeAllDown();
    }

    method TakeAllDown()
      requires Valid()
      modifies `handlers, `stream, `timer, `server, `ready, `screenEnabled, `state
      ensures Valid() && state == Down(old(state))
    {
      hide HandlersOf, StreamOf, TimerOf;
      TakeDown(state.link);
      state := Down(state);
    }

    method ForgetLookups()
      requires Valid()
      modifies `resolveGeneration, `state
      ensures Valid() && state == old(state).(generation := old(state.generation) + 1)
    {
      hide HandlersOf, StreamOf, TimerOf;
      resolveGeneration := resolveGeneration + 1;
      state := state.(generation := resolveGeneration);
    }

    method SendEvent(notice: Notice)
      requires Valid()
      modifies `sent, `state
      ensures Valid() && sent == old(sent) + [notice] && state == Say(old(state), [notice])
    {
      hide HandlersOf, StreamOf, TimerOf;
      sent := sent + [notice];
      state := Say(state, [notice]);
    }

    method SetSuspended(on: bool)
      requires Valid()
      modifies `suspended, `state
      ensures Valid() && suspended == on && state == old(state).(suspended := on)
    {
      hide HandlersOf, StreamOf, TimerOf;
      suspended := on;
      state := state.(suspended := on);
    }

    method SetConnectOnResume(on: bool)
      requires Valid()
      modifies `connectOnResume, `state
      ensures Valid() && connectOnResume == on && state == old(state).(connectOnResume := on)
    {
      hide HandlersOf, StreamOf, TimerOf;
      connectOnResume := on;
      state := state.(connectOnResume := on);
    }

    /** What the state says about the fields. */
    lemma WhatIsValid()
      requires Valid()
      ensures handlers == HandlersOf(state.link, alive) && alive == state.alive && (alive || state.link == Idle)
      ensures stream == StreamOf(state.link) && (server.Some? <==> state.link.Serving?)
      ensures suspended == state.suspended && connectOnResume == state.connectOnResume
      ensures hasHostname == state.hasHostname && resolveGeneration == state.generation && lookups == state.lookups
      ensures nextId == state.nextId
    {
    }

    // ---------- Calls ----------

    method DoConnect(net: Net)
      requires Valid() && alive
      modifies this
      ensures Valid() && state == Connected(old(state), net)
    {
      hide Valid, HandlersOf;
      WhatIsValid();
      if stream != None {
        return;
      }
      if suspended {
        SetConnectOnResume(true);
        return;
      }
      if !hasHostname {
        ContinueConnect(net);
        return;
      }
      StartLookup();
    }

    method StartLookup()
      requires Valid()
      modifies `resolveGeneration, `lookups, `state
      ensures Valid()
      ensures
        var g := old(state.generation) + 1;
        state == old(state).(generation := g, lookups := old(state.lookups) + {g})
    {
      hide HandlersOf, StreamOf, TimerOf;
      resolveGeneration := resolveGeneration + 1;
      lookups := lookups + {resolveGeneration};
      state := state.(generation := resolveGeneration, lookups := lookups);
    }

    /** What is run when a lookup is done: it is given its own generation. */
    method OnLookupDone(generation: nat, found: bool, net: Net)
      requires Valid() && generation in lookups
      modifies this
      ensures Valid() && state == LookedUp(old(state), generation, found, net)
    {
      hide Valid, HandlersOf;
      EndLookup(generation);
      WhatIsValid();
      if !alive {
        return;
      }
      if generation != resolveGeneration || stream != None || suspended {
        return;
      }
      if !found {
        SendEvent(ConnectionFailed);
        return;
      }
      ContinueConnect(net);
    }

    method EndLookup(generation: nat)
      requires Valid()
      modifies `lookups, `state
      ensures Valid() && state == old(state).(lookups := old(state.lookups) - {generation})
    {
      hide HandlersOf, StreamOf, TimerOf;
      lookups := lookups - {generation};
      state := state.(lookups := lookups);
    }

    /** Creates the stream and the timer; `net` says how far it gets before it throws. */
    method ContinueConnect(net: Net)
      requires Valid() && alive && stream == None && !suspended
      modifies `stream, `timer, `handlers, `nextId, `sent, `state
      ensures Valid() && state == Opened(old(state), net)
    {
      hide Valid, HandlersOf;
      WhatIsValid();
      if net == NoSocket {
        HandleConnectionFailed();
        return;
      }
      OpenStream();
      if net == SocketFails {
        HandleConnectionFailed();
      }
    }

    method OpenStream()
      requires Valid() && alive && state.link == Idle
      modifies `stream, `timer, `handlers, `nextId, `state
      ensures Valid() && state == Opened(old(state), Underway)
    {
      hide HandlersOf, ConnectingHandlers, TimerHandlers;
      stream := Some(nextId);
      nextId := nextId + 1;
      SetupConnecting();
      SetupTimer();
      TurnsConnecting(alive, stream.value, timer.value);
      state := Opened(state, Underway);
    }

    /** Takes down a connection that has not come about, if there is one. */
    method GiveUp(ghost link: Link)
      requires Tied(link) && (link.Connecting? || link == Idle)
      modifies `handlers, `stream, `timer
      ensures Tied(Idle)
    {
      hide HandlersOf, ConnectingHandlers, ConnectionHandlers;
      ghost var before := handlers;
      CleanupTimer();
      assert handlers == before - TimerKeys(link);
      CleanupConnecting();
      assert handlers == before - TimerKeys(link) - ConnectingKeys(link);
      CleanupStream();
      TakenAway(link, alive);
      MinusNothing(before);
    }

    method DoDisconnect(message: bool)
      requires Valid()
      modifies this
      ensures Valid()
      ensures state == Say(Cleaned(old(state)), [if message then ConnectionFailed else ClientDisconnected])
    {
      hide Valid, Cleaned, Say;
      Cleanup();
      if message {
        SendEvent(ConnectionFailed);
      } else {
        SendEvent(ClientDisconnected);
      }
    }

    method DoRefuseConnection(message: bool)
      requires Valid()
      modifies this
      ensures Valid() && state == Say(Cleaned(old(state)), if message then [ConnectionRefused] else [])
    {
      hide HandlersOf;
      Cleanup();
      if message {
        SendEvent(ConnectionRefused);
      }
    }

    method SetServerAddress(hasHostname: bool)
      requires Valid()
      modifies `hasHostname, `state
      ensures Valid() && state == old(state).(hasHostname := hasHostname)
    {
      hide HandlersOf, StreamOf, TimerOf;
      this.hasHostname := hasHostname;
      state := state.(hasHostname := hasHostname);
    }

    /** The client takes the caller's word for it that there is a proxy. */
    method DoHandshakeComplete()
      requires Valid()
      modifies `ready, `screenEnabled, `sent, `state
      ensures Valid() && state == Say(old(state).(ready := true, screenEnabled := true), [ClientConnected])
    {
      hide HandlersOf, StreamOf, TimerOf;
      ready := true;
      screenEnabled := true;
      state := state.(ready := true, screenEnabled := true);
      SendEvent(ClientConnected);
    }

    /** The destructor. */
    method DoDestroy()
      requires Valid() && alive
      modifies this
      ensures Valid() && state == Down(old(state)).(alive := false)
    {
      hide HandlersOf, StreamOf, TimerOf;
      RemoveOwnHandlers(state.link);
      TakeDown(state.link);
      state := Down(state).(alive := false);
    }

    method RemoveOwnHandlers(ghost link: Link)
      requires Tied(link) && alive
      modifies `handlers, `alive
      ensures Tied(link) && !alive
    {
      hide HandlersOf, StreamOf, TimerOf;
      BaseGone(link);
      alive := false;
      handlers := handlers - {SUSPEND};
      handlers := handlers - {RESUME};
    }

    // ---------- Events ----------

    method HandleConnected()
      requires Valid() && state.link.Connecting?
      modifies `handlers, `state
      ensures Valid() && state == old(state).(link := Greeting(old(state.link.stream), old(state.link.timer)))
    {
      hide HandlersOf, ConnectingHandlers, ConnectionHandlers;
      CleanupConnecting();
      SetupConnection();
      TurnsGreeting(alive, state.link.stream, state.link.timer);
      state := state.(link := Greeting(state.link.stream, state.link.timer));
    }

    /** What is done as well when an attempt to connect throws. */
    method HandleConnectionFailed()
      requires Valid() && (state.link.Connecting? || state.link == Idle)
      modifies `handlers, `stream, `timer, `sent, `state
      ensures Valid() && state == Say(old(state).(link := Idle), [ConnectionFailed])
    {
      hide HandlersOf;
      GiveUp(state.link);
      state := state.(link := Idle);
      SendEvent(ConnectionFailed);
    }

    method HandleConnectTimeout()
      requires Valid() && TimerOf(state.link).Some?
      modifies `handlers, `stream, `timer, `sent, `state
      ensures Valid() && state == Say(old(state).(link := Idle), [ConnectionFailed])
    {
      hide HandlersOf;
      EndAttempt(state.link);
      CleanupStream();
      state := state.(link := Idle);
      SendEvent(ConnectionFailed);
    }

    method EndAttempt(ghost link: Link)
      requires Tied(link) && !link.Serving?
      modifies `handlers, `stream, `timer
      ensures Tied(Idle)
    {
      hide HandlersOf, ConnectingHandlers, ConnectionHandlers;
      ghost var before := handlers;
      CleanupTimer();
      assert handlers == before - TimerKeys(link);
      CleanupConnecting();
      assert handlers == before - TimerKeys(link) - ConnectingKeys(link);
      CleanupConnection();
      TakenAway(link, alive);
    }

    /** An output error and a disconnect are handled alike, but for what is logged. */
    method HandleDisconnected()
      requires Valid() && (state.link.Greeting? || state.link.Serving?)
      modifies `handlers, `stream, `timer, `server, `ready, `screenEnabled, `sent, `state
      ensures Valid() && state == Say(Down(old(state)), [ClientDisconnected])
    {
      hide HandlersOf, StreamOf, TimerOf;
      EndConnection(state.link);
      state := Down(state);
      SendEvent(ClientDisconnected);
    }

    method EndConnection(ghost link: Link)
      requires Tied(link) && !link.Connecting?
      modifies `handlers, `stream, `timer, `server, `ready, `screenEnabled
      ensures Tied(Idle)
      ensures ready == (old(ready) && !link.Serving?)
      ensures screenEnabled == (old(screenEnabled) && !(old(ready) && link.Serving?))
    {
      hide HandlersOf, ConnectingHandlers, ConnectionHandlers;
      ghost var before := handlers;
      CleanupTimer();
      assert handlers == before - TimerKeys(link);
      CleanupScreen();
      assert handlers == before - TimerKeys(link) - ProxyKeys(link);
      CleanupConnection();
      TakenAway(link, alive);
    }

    method HandleHello(known: bool, more: bool)
      requires Valid() && state.link.Greeting?
      modifies `handlers, `stream, `timer, `server, `ready, `sent, `state
      ensures Valid() && state == OnStream(old(state), StreamInputReady, known, more)
    {
      hide Valid, HandlersOf;
      if !known {
        SendEvent(ConnectionFailed);
        EndGreeting();
        return;
      }
      StartServing();
      WhatIsValid();
      if more {
        SendEvent(MoreInput(stream.value));
      }
    }

    method EndGreeting()
      requires Valid() && state.link.Greeting?
      modifies `handlers, `stream, `timer, `state
      ensures Valid() && state == old(state).(link := Idle)
    {
      hide HandlersOf, ConnectionHandlers;
      ghost var before, link := handlers, state.link;
      CleanupTimer();
      assert handlers == before - TimerKeys(link);
      CleanupConnection();
      TakenAway(link, alive);
      state := state.(link := Idle);
    }

    method StartServing()
      requires Valid() && state.link.Greeting?
      modifies `handlers, `timer, `server, `ready, `state
      ensures Valid() && state == old(state).(link := Serving(old(state.link.stream)), ready := false)
    {
      hide HandlersOf, ConnectionHandlers, ScreenHandlers;
      TurnsServing(alive, state.link.stream, state.link.timer);
      SetupScreen();
      CleanupTimer();
      state := state.(link := Serving(state.link.stream), ready := false);
    }

    method HandleSuspend()
      requires Valid()
      modifies this
      ensures Valid() && state == Suspended(old(state))
    {
      hide Valid, HandlersOf;
      WhatIsValid();
      if !suspended {
        SetSuspended(true);
        var wasConnected := server != None;
        DoDisconnect(false);
        SetConnectOnResume(wasConnected);
      }
    }

    method HandleResume(net: Net)
      requires Valid() && alive
      modifies this
      ensures Valid() && state == Resumed(old(state), net)
    {
      hide Valid, HandlersOf;
      WhatIsValid();
      if suspended {
        SetSuspended(false);
        if connectOnResume {
          SetConnectOnResume(false);
          DoConnect(net);
        }
      }
    }

    /** Both go on to the server proxy, which must be there, and change nothing here. */
    method HandleForProxy()
      requires server.Some?
    {
      assert server != None;
    }

    /** What the event queue does with an event: it runs the handler registered for its target and kind, if any. */
    method Dispatch(target: Target, kind: Kind, known: bool, more: bool, net: Net)
      requires Valid()
      modifies this
      ensures Valid()
      ensures state ==
        if old(alive) then OnEvent(old(state), Event(target, kind, known, more, net)) else old(state)
    {
      hide HandlersOf, Valid, HandlerFor;
      WhatIsValid();
      HandlerIsRight(state.link, alive, target, kind);
      HandledByTarget(state.link, alive, target, kind);
      if (target, kind) !in handlers {
        return;
      }
      var handler := handlers[(target, kind)];
      match handler
      case OnSuspend => HandleSuspend();
      case OnResume => HandleResume(net);
      case OnTimeout => HandleConnectTimeout();
      case OnShapeChanged => HandleForProxy();
      case OnClipboardGrabbed => HandleForProxy();
      case _ => RunStreamHandler(handler, kind, known, more);
    }

    /** The handlers of a stream. */
    method RunStreamHandler(handler: Handler, kind: Kind, known: bool, more: bool)
      requires Valid() && StreamHandler(state.link, kind) == Some(handler)
      modifies `handlers, `stream, `timer, `server, `ready, `screenEnabled, `sent, `state
      ensures Valid() && state == OnStream(old(state), kind, known, more)
    {
      hide HandlersOf, Valid;
      WhatIsValid();
      match handler
      case OnConnected => HandleConnected();
      case OnConnectionFailed => HandleConnectionFailed();
      case OnDisconnected => HandleDisconnected();
      case OnOutputError => HandleDisconnected();
      case OnHello => HandleHello(known, more);
      case OnServerData => HandleForProxy();
    }

    /** Whatever happens to a client; a client that is gone is not called. */
    method Perform(input: Input)
      requires Valid()
      modifies this
      ensures Valid() && state == Step(old(state), input)
    {
      hide HandlersOf;
      match input
      case LookupDone(generation, found, net) =>
        if generation in lookups {
          OnLookupDone(generation, found, net);
        }
      case Event(target, kind, known, more, net) => Dispatch(target, kind, known, more, net);
      case Connect(net) => if alive { DoConnect(net); }
      case Disconnect(message) => if alive { DoDisconnect(message); }
      case RefuseConnection(message) => if alive { DoRefuseConnection(message); }
      case SetServerAddress(hasHostname) => if alive { SetServerAddress(hasHostname); }
      case HandshakeComplete => if alive { DoHandshakeComplete(); }
      case Destroy => if alive { DoDestroy(); }
    }
  }

  /** The handler that each state of the connection has for an event of its stream. */
  function StreamHandler(link: Link, kind: Kind): Option<Handler> {
    if link == Idle then None
    else if link.Connecting? then
      if kind.DataSocketConnected? then Some(OnConnected)
      else if kind.DataSocketConnectionFailed? then Some(OnConnectionFailed)
      else None
    else if kind.StreamInputReady? then Some(if link.Serving? then OnServerData else OnHello)
    else if kind.StreamOutputError? then Some(OnOutputError)
    else if Breaks(kind) then Some(OnDisconnected)
    else None
  }

  /** The handler that each state of the connection has for an event. */
  function HandlerFor(link: Link, alive: bool, target: Target, kind: Kind): Option<Handler> {
    match target
    case TheScreen =>
      if alive && kind.ScreenSuspend? then Some(OnSuspend)
      else if alive && kind.ScreenResume? then Some(OnResume)
      else if link.Serving? && kind.ScreenShapeChanged? then Some(OnShapeChanged)
      else if link.Serving? && kind.ClipboardGrabbed? then Some(OnClipboardGrabbed)
      else None
    case Timer(timer) => if TimerOf(link) == Some(timer) && kind.TimerFired? then Some(OnTimeout) else None
    case Stream(stream) => if StreamOf(link) == Some(stream) then StreamHandler(link, kind) else None
  }

  /** What the handler for an event says about the event. */
  lemma HandledByTarget(link: Link, alive: bool, target: Target, kind: Kind)
    ensures
      var h := HandlerFor(link, alive, target, kind);
      && (h == Some(OnSuspend) <==> target.TheScreen? && kind.ScreenSuspend? && alive)
      && (h == Some(OnResume) <==> target.TheScreen? && kind.ScreenResume? && alive)
      && (h == Some(OnTimeout) <==> target.Timer? && TimerOf(link) == Some(target.timer) && kind.TimerFired?)
      && (h == Some(OnShapeChanged) || h == Some(OnClipboardGrabbed) ==>
            target.TheScreen? && link.Serving? && !kind.ScreenSuspend? && !kind.ScreenResume?)
      && (target.Stream? && StreamOf(link) == Some(target.stream) ==> h == StreamHandler(link, kind))
      && (h.Some? && h.value in {OnConnected, OnConnectionFailed, OnDisconnected, OnOutputError, OnHello, OnServerData} ==>
            target.Stream? && StreamOf(link) == Some(target.stream))
  {
  }

  function Find(h: HandlerTable, key: Key): Option<Handler> {
    if key in h then Some(h[key]) else None
  }

  lemma FindInBoth(a: HandlerTable, b: HandlerTable, key: Key)
    ensures Find(a + b, key) == if key in b then Find(b, key) else Find(a, key)
  {
  }

  lemma HandlerIsRight(link: Link, alive: bool, target: Target, kind: Kind)
    ensures HandlerFor(link, alive, target, kind) == Find(HandlersOf(link, alive), (target, kind))
  {
    var key := (target, kind);
    match link
    case Idle =>
    case Connecting(stream, timer) =>
      FindInBoth(ClientHandlers(alive), ConnectingHandlers(stream) + TimerHandlers(timer), key);
      FindInBoth(ConnectingHandlers(stream), TimerHandlers(timer), key);
    case Greeting(stream, timer) =>
      FindInBoth(ClientHandlers(alive), ConnectionHandlers(stream, OnHello) + TimerHandlers(timer), key);
      FindInBoth(ConnectionHandlers(stream, OnHello), TimerHandlers(timer), key);
      FoundOnStream(stream, OnHello, key);
    case Serving(stream) =>
      FindInBoth(ClientHandlers(alive), ConnectionHandlers(stream, OnServerData) + ScreenHandlers(), key);
      FindInBoth(ConnectionHandlers(stream, OnServerData), ScreenHandlers(), key);
      FoundOnStream(stream, OnServerData, key);
  }

  lemma FoundOnStream(stream: nat, onInput: Handler, key: Key)
    ensures Find(ConnectionHandlers(stream, onInput), key) ==
      if key.0 != Stream(stream) then None
      else if key.1.StreamInputReady? then Some(onInput)
      else if key.1.StreamOutputError? then Some(OnOutputError)
      else if Breaks(key.1) then Some(OnDisconnected)
      else None
  {
  }

  /** A whole life of a client is a run of the automaton; between any two inputs there is a server proxy only with
      a stream and without a timer, and a timer only with a stream.  The client is ready without a proxy exactly if it
      was told that the handshake is complete while it had none, and has had none since. */
  method Live(inputs: seq<Input>, hasHostname: bool)
    returns (stream: Option<nat>, timer: Option<nat>, server: Option<nat>, ready: bool, screenEnabled: bool,
      sent: seq<Notice>, handlers: HandlerTable)
    ensures var end := Run(inputs, hasHostname);
      && stream == StreamOf(end.link) && timer == TimerOf(end.link)
      && server == (if end.link.Serving? then stream else None)
      && ready == end.ready && screenEnabled == end.screenEnabled
      && sent == end.sent && handlers == HandlersOf(end.link, end.alive)
      && (end.suspended ==> stream == None)
    ensures stream == None ==> timer == None && server == None
    ensures server != None ==> server == stream && timer == None
    ensures ready ==> screenEnabled
    ensures ready && server == None <==> exists i :: 0 <= i < |inputs| && Strayed(inputs, i, hasHostname)
  {
    hide Step, HandlersOf, Strayed;
    var client := new Client(hasHostname);
    for n := 0 to |inputs|
      invariant fresh(client) && client.Valid()
      invariant client.state == Run(inputs[..n], hasHostname)
    {
      assert inputs[..n + 1][..n] == inputs[..n];
      client.Perform(inputs[n]);
    }
    assert inputs[..|inputs|] == inputs;
    RunIsSound(inputs, hasHostname);
    ReadyAloneExactly(inputs, hasHostname);
    stream, timer, server, ready := client.stream, client.timer, client.server, client.ready;
    screenEnabled, sent, handlers := client.screenEnabled, client.sent, client.handlers;
  }

  lemma BaseGone(link: Link)
    ensures HandlersOf(link, true) - {SUSPEND} - {RESUME} == HandlersOf(link, false)
  {
    assert SUSPEND !in LinkHandlers(link) && RESUME !in LinkHandlers(link);
    assert ClientHandlers(true).Keys == {SUSPEND, RESUME};
    hide LinkHandlers;
    DropFirst(ClientHandlers(true), LinkHandlers(link), SUSPEND, RESUME);
  }

  lemma DropFirst(a: HandlerTable, b: HandlerTable, one: Key, other: Key)
    requires a.Keys == {one, other} && one !in b && other !in b
    ensures a + b - {one} - {other} == map[] + b
  {
  }
}
