/** The connection of the client as a small automaton, with the history it is judged by. */
module ClientSpec {
  import opened Options

  /** What the connection consists of.  Streams and timers are numbered in order of creation. */
  datatype Link =
    | Idle
    | Connecting(stream: nat, timer: nat)
    | Greeting(stream: nat, timer: nat)
    | Serving(stream: nat)

  datatype Notice = ConnectionFailed | ClientDisconnected | ClientConnected | ConnectionRefused | MoreInput(stream: nat)

  /** How far an attempt to connect gets before it throws. */
  datatype Net = NoSocket | SocketFails | Underway

  datatype Kind =
    | DataSocketConnected | DataSocketConnectionFailed | SocketDisconnected
    | StreamInputReady | StreamOutputError | StreamInputShutdown | StreamOutputShutdown
    | ScreenSuspend | ScreenResume | ScreenShapeChanged | ClipboardGrabbed | TimerFired

  datatype Target = TheScreen | Stream(stream: nat) | Timer(timer: nat)

  /** The client is ready when it is told that the handshake is complete, whether or not there is a proxy then. */
  datatype State = State(
    link: Link,
    hasHostname: bool,
    ready: bool,
    screenEnabled: bool,
    suspended: bool,
    connectOnResume: bool,
    generation: nat,
    lookups: set<nat>,
    alive: bool,
    nextId: nat,
    sent: seq<Notice>)

  /** Whatever can happen to a client: calls, results of lookups, and events of any kind for any target.
      `known` says that a hello names a known protocol, `more` that more input is waiting behind it. */
  datatype Input =
    | Connect(net: Net)
    | LookupDone(generation: nat, found: bool, net: Net)
    | Disconnect(message: bool)
    | RefuseConnection(message: bool)
    | SetServerAddress(hasHostname: bool)
    | HandshakeComplete
    | Event(target: Target, kind: Kind, known: bool, more: bool, net: Net)
    | Destroy

  function Say(s: State, notices: seq<Notice>): State {
    s.(sent := s.sent + notices)
  }

  /** An attempt to connect creates a stream and a timer, unless it fails before that. */
  function Opened(s: State, net: Net): State {
    match net
    case NoSocket => Say(s, [ConnectionFailed])
    case SocketFails => Say(s.(nextId := s.nextId + 2), [ConnectionFailed])
    case Underway => s.(link := Connecting(s.nextId, s.nextId + 1), nextId := s.nextId + 2)
  }

  function Connected(s: State, net: Net): State {
    if s.link != Idle then s
    else if s.suspended then s.(connectOnResume := true)
    else if !s.hasHostname then Opened(s, net)
    else s.(generation := s.generation + 1, lookups := s.lookups + {s.generation + 1})
  }

  /** The connection is taken down; with a proxy, a ready client ceases to be so and its screen is disabled. */
  function Down(s: State): State {
    if s.link.Serving? && s.ready then s.(link := Idle, ready := false, screenEnabled := false)
    else s.(link := Idle)
  }

  /** Everything is taken down, and lookups under way are forgotten. */
  function Cleaned(s: State): State {
    Down(s).(generation := s.generation + 1, connectOnResume := false)
  }

  /** The result of a lookup is used only if nothing has happened since that makes it stale. */
  predicate Fresh(s: State, generation: nat) {
    s.alive && generation == s.generation && s.link == Idle && !s.suspended
  }

  function LookedUp(s: State, generation: nat, found: bool, net: Net): State {
    var s' := s.(lookups := s.lookups - {generation});
    if !Fresh(s, generation) then s'
    else if !found then Say(s', [ConnectionFailed])
    else Opened(s', net)
  }

  function Suspended(s: State): State {
    if s.suspended then s
    else Say(Cleaned(s).(suspended := true, connectOnResume := s.link.Serving?), [ClientDisconnected])
  }

  function Resumed(s: State, net: Net): State {
    if !s.suspended then s
    else if !s.connectOnResume then s.(suspended := false)
    else Connected(s.(suspended := false, connectOnResume := false), net)
  }

  function OnStream(s: State, kind: Kind, known: bool, more: bool): State {
    if s.link.Connecting? then
      if kind.DataSocketConnected? then s.(link := Greeting(s.link.stream, s.link.timer))
      else if kind.DataSocketConnectionFailed? then Say(s.(link := Idle), [ConnectionFailed])
      else s
    else if s.link.Greeting? && kind.StreamInputReady? then
      if !known then Say(s.(link := Idle), [ConnectionFailed])
      else Say(s.(link := Serving(s.link.stream), ready := false), if more then [MoreInput(s.link.stream)] else [])
    else if s.link != Idle && Breaks(kind) then Say(Down(s), [ClientDisconnected])
    else s
  }

  predicate Breaks(kind: Kind) {
    kind.SocketDisconnected? || kind.StreamOutputError? || kind.StreamInputShutdown? || kind.StreamOutputShutdown?
  }

  function StreamOf(link: Link): Option<nat> {
    if link.Idle? then None else Some(link.stream)
  }

  function TimerOf(link: Link): Option<nat> {
    if link.Connecting? || link.Greeting? then Some(link.timer) else None
  }

  function OnEvent(s: State, input: Input): State
    requires input.Event?
  {
    match input.target
    case TheScreen =>
      if input.kind.ScreenSuspend? then Suspended(s)
      else if input.kind.ScreenResume? then Resumed(s, input.net)
      else s
    case Stream(stream) => if StreamOf(s.link) == Some(stream) then OnStream(s, input.kind, input.known, input.more) else s
    case Timer(timer) =>
      if TimerOf(s.link) == Some(timer) && input.kind.TimerFired? then Say(s.(link := Idle), [ConnectionFailed]) else s
  }

  function Step(s: State, input: Input): State {
    if input.LookupDone? then
      if input.generation in s.lookups then LookedUp(s, input.generation, input.found, input.net) else s
    else if !s.alive then s
    else
      match input
      case Connect(net) => Connected(s, net)
      case Disconnect(message) => Say(Cleaned(s), [if message then ConnectionFailed else ClientDisconnected])
      case RefuseConnection(message) => Say(Cleaned(s), if message then [ConnectionRefused] else [])
      case SetServerAddress(hasHostname) => s.(hasHostname := hasHostname)
      case HandshakeComplete => Say(s.(ready := true, screenEnabled := true), [ClientConnected])
      case Event(_, _, _, _, _) => OnEvent(s, input)
      case Destroy => Down(s).(alive := false)
  }

  /** A client that has not done anything yet; its server address may lack a hostname. */
  function Start(hasHostname: bool): State {
    State(Idle, hasHostname, false, false, false, false, 0, {}, true, 0, [])
  }

  function Run(inputs: seq<Input>, hasHostname: bool): State {
    if inputs == [] then Start(hasHostname)
    else Step(Run(inputs[..|inputs| - 1], hasHostname), inputs[|inputs| - 1])
  }

  // ---------- What holds in every run ----------

  /** A suspended client has no connection, and only a suspended one waits to be resumed;
      lookups under way are not younger than the generation, and objects are numbered below the next number. */
  predicate Sound(s: State) {
    && (s.suspended ==> s.link == Idle)
    && (s.connectOnResume ==> s.suspended)
    && (s.ready ==> s.screenEnabled)
    && (forall g :: g in s.lookups ==> g <= s.generation)
    && (s.link != Idle ==> s.link.stream < s.nextId && s.alive)
  }

  /** Counters only grow, a new lookup has the new generation, and what is sound stays sound. */
  predicate Advances(s: State, s': State) {
    && s.generation <= s'.generation && s.nextId <= s'.nextId && (s'.alive ==> s.alive)
    && (forall g :: g in s'.lookups ==> g in s.lookups || g == s.generation + 1 == s'.generation)
    && (Sound(s) ==> Sound(s'))
  }

  lemma ConnectedAdvances(s: State, net: Net)
    requires s.alive
    ensures Advances(s, Connected(s, net))
  {
  }

  lemma ResumedAdvances(s: State, net: Net)
    requires s.alive
    ensures Advances(s, Resumed(s, net))
  {
    hide Connected;
    var awake := s.(suspended := false, connectOnResume := false);
    ConnectedAdvances(awake, net);
  }

  /** Losing the connection, and saying something, changes no more than that. */
  lemma LinkAdvances(s: State, link: Link, ready: bool, notices: seq<Notice>)
    requires s.alive
    requires link == Idle || (s.link != Idle && link.stream == s.link.stream)
    requires ready ==> s.ready
    ensures Advances(s, Say(s.(link := link, ready := ready), notices))
    ensures Advances(s, s.(link := link)) && Advances(s, Say(s.(link := link), notices))
    ensures Advances(s, Say(Down(s), notices))
  {
  }

  lemma OnStreamAdvances(s: State, kind: Kind, known: bool, more: bool)
    requires s.alive
    ensures Advances(s, OnStream(s, kind, known, more))
  {
    hide Advances, Say, Down;
    var s' := OnStream(s, kind, known, more);
    NothingAdvances(s);
    LinkAdvances(s, Idle, false, [ConnectionFailed]);
    LinkAdvances(s, Idle, false, [ClientDisconnected]);
    if s.link.Connecting? {
      LinkAdvances(s, Greeting(s.link.stream, s.link.timer), false, []);
    } else if s.link.Greeting? {
      LinkAdvances(s, Serving(s.link.stream), false, if more then [MoreInput(s.link.stream)] else []);
    }
  }

  lemma NothingAdvances(s: State)
    ensures Advances(s, s)
  {
  }

  lemma SuspendedAdvances(s: State)
    requires s.alive
    ensures Advances(s, Suspended(s))
  {
  }

  lemma EventAdvances(s: State, input: Input)
    requires s.alive && input.Event?
    ensures Advances(s, OnEvent(s, input))
  {
    hide Resumed, Suspended, OnStream;
    ResumedAdvances(s, input.net);
    SuspendedAdvances(s);
    OnStreamAdvances(s, input.kind, input.known, input.more);
  }

  lemma LookedUpAdvances(s: State, generation: nat, found: bool, net: Net)
    ensures Advances(s, LookedUp(s, generation, found, net))
  {
  }

  lemma StepAdvances(s: State, input: Input)
    ensures Advances(s, Step(s, input))
  {
    hide OnEvent, LookedUp, Connected;
    match input {
      case LookupDone(generation, found, net) => LookedUpAdvances(s, generation, found, net);
      case Connect(net) => if s.alive { ConnectedAdvances(s, net); }
      case Event(_, _, _, _, _) => if s.alive { EventAdvances(s, input); }
      case _ =>
    }
  }

  lemma StepIsSound(s: State, input: Input)
    requires Sound(s)
    ensures Sound(Step(s, input))
    ensures s.generation <= Step(s, input).generation && s.nextId <= Step(s, input).nextId
  {
    hide Step, Sound;
    StepAdvances(s, input);
  }

  lemma {:induction false} RunIsSound(inputs: seq<Input>, hasHostname: bool)
    ensures Sound(Run(inputs, hasHostname))
  {
    if inputs != [] {
      RunIsSound(inputs[..|inputs| - 1], hasHostname);
      StepIsSound(Run(inputs[..|inputs| - 1], hasHostname), inputs[|inputs| - 1]);
    }
  }

  lemma {:induction false} GenerationsGrow(inputs: seq<Input>, i: nat, hasHostname: bool)
    requires i <= |inputs|
    ensures Run(inputs[..i], hasHostname).generation <= Run(inputs, hasHostname).generation
    ensures Run(inputs[..i], hasHostname).nextId <= Run(inputs, hasHostname).nextId
    ensures !Run(inputs[..i], hasHostname).alive ==> !Run(inputs, hasHostname).alive
    decreases |inputs|
  {
    if i < |inputs| {
      var before := inputs[..|inputs| - 1];
      GenerationsGrow(before, i, hasHostname);
      assert before[..i] == inputs[..i];
      RunIsSound(before, hasHostname);
      StepIsSound(Run(before, hasHostname), inputs[|inputs| - 1]);
    } else {
      assert inputs[..i] == inputs;
    }
  }

  /** The step takes everything down and forgets the lookups under way. */
  predicate CleansUp(s: State, input: Input) {
    s.alive
    && (input.Disconnect? || input.RefuseConnection?
        || (input.Event? && input.target.TheScreen? && input.kind.ScreenSuspend? && !s.suspended))
  }

  /** The step starts the lookup of generation `g`. */
  predicate StartsLookup(s: State, input: Input, g: nat) {
    g == s.generation + 1 && g in Step(s, input).lookups && g !in s.lookups
  }

  /** A lookup that is done opens a connection, or reports a failure, only if it was started by some step of the run
      and since then no other was started and the client was neither disconnected nor refused nor suspended, and it is
      alive, idle and awake.  A connection may have been opened without a lookup, and lost, in the meantime. */
  lemma {:induction false} StaleLookupOpensNothing(inputs: seq<Input>, done: Input, hasHostname: bool) returns (i: nat)
    requires done.LookupDone?
    requires
      var s := Run(inputs, hasHostname);
      Step(s, done).link != s.link || Step(s, done).sent != s.sent
    ensures i < |inputs| && StartsLookup(Run(inputs[..i], hasHostname), inputs[i], done.generation)
    ensures
      var s := Run(inputs, hasHostname);
      && s.alive && s.link == Idle && !s.suspended && s.generation == done.generation
    ensures forall j :: i < j < |inputs| ==> !CleansUp(Run(inputs[..j], hasHostname), inputs[j])
    ensures forall j, g :: i < j < |inputs| ==> !StartsLookup(Run(inputs[..j], hasHostname), inputs[j], g)
    ensures forall j :: i <= j <= |inputs| ==> Run(inputs[..j], hasHostname).alive
  {
    hide Step, Run, CleansUp, StartsLookup, Sound;
    assert inputs[..|inputs|] == inputs;
    ChangeMeansFresh(Run(inputs, hasHostname), done);
    i := EveryLookupWasStarted(inputs, done.generation, hasHostname);
    StepHere(inputs, i, hasHostname);
    GenerationGrows(Run(inputs[..i], hasHostname), inputs[i], done.generation);
    forall j | i < j < |inputs|
      ensures !CleansUp(Run(inputs[..j], hasHostname), inputs[j])
      ensures forall h :: !StartsLookup(Run(inputs[..j], hasHostname), inputs[j], h)
    {
      StepHere(inputs, j, hasHostname);
      GenerationBetween(inputs, i + 1, j, hasHostname);
      GenerationsGrow(inputs, j + 1, hasHostname);
      GenerationGrows(Run(inputs[..j], hasHostname), inputs[j], 0);
      forall h ensures !StartsLookup(Run(inputs[..j], hasHostname), inputs[j], h) {
        GenerationGrows(Run(inputs[..j], hasHostname), inputs[j], h);
      }
    }
    forall j | i <= j <= |inputs| ensures Run(inputs[..j], hasHostname).alive {
      GenerationsGrow(inputs, j, hasHostname);
    }
  }

  /** The lookup that is done opens a connection or reports a failure. */
  predicate Acts(s: State, done: Input) {
    Step(s, done).link != s.link || Step(s, done).sent != s.sent
  }

  /** The step begins a new generation. */
  predicate Renews(s: State, input: Input) {
    CleansUp(s, input) || StartsLookup(s, input, s.generation + 1)
  }

  lemma EventKeepsGeneration(s: State, input: Input)
    requires Sound(s) && input.Event? && s.alive && !Renews(s, input)
    ensures OnEvent(s, input).generation == s.generation
  {
    hide OnStream;
    OnStreamKeepsGeneration(s, input.kind, input.known, input.more);
  }

  lemma OnStreamKeepsGeneration(s: State, kind: Kind, known: bool, more: bool)
    ensures OnStream(s, kind, known, more).generation == s.generation
  {
    hide Say, Down;
    SayKeepsGeneration(s.(link := Idle), [ConnectionFailed]);
    SayKeepsGeneration(Down(s), [ClientDisconnected]);
    if s.link.Greeting? {
      SayKeepsGeneration(s.(link := Serving(s.link.stream), ready := false),
                         if more then [MoreInput(s.link.stream)] else []);
    }
    DownKeepsGeneration(s);
  }

  lemma SayKeepsGeneration(s: State, notices: seq<Notice>)
    ensures Say(s, notices).generation == s.generation
  {
  }

  lemma DownKeepsGeneration(s: State)
    ensures Down(s).generation == s.generation
  {
  }

  lemma StepKeepsGeneration(s: State, input: Input)
    requires Sound(s)
    ensures Renews(s, input) <==> Step(s, input).generation != s.generation
  {
    if Renews(s, input) {
      hide Step, Sound, CleansUp, StartsLookup;
      GenerationGrows(s, input, s.generation + 1);
    } else if input.Event? && s.alive {
      EventKeepsGeneration(s, input);
    } else {
      OtherStepKeepsGeneration(s, input);
    }
  }

  lemma OtherStepKeepsGeneration(s: State, input: Input)
    requires Sound(s) && (!input.Event? || !s.alive) && !Renews(s, input)
    ensures Step(s, input).generation == s.generation
  {
    hide OnEvent;
  }

  lemma {:induction false} SameGeneration(inputs: seq<Input>, i: nat, hasHostname: bool)
    requires i <= |inputs|
    requires forall j :: i <= j < |inputs| ==> !Renews(Run(inputs[..j], hasHostname), inputs[j])
    ensures Run(inputs, hasHostname).generation == Run(inputs[..i], hasHostname).generation
    decreases |inputs|
  {
    hide Step, Renews, Sound;
    if i == |inputs| {
      assert inputs[..i] == inputs;
    } else {
      var n := |inputs| - 1;
      var before := inputs[..n];
      assert before[..i] == inputs[..i];
      forall j | i <= j < n ensures !Renews(Run(before[..j], hasHostname), before[j]) {
        assert before[..j] == inputs[..j];
      }
      SameGeneration(before, i, hasHostname);
      RunIsSound(before, hasHostname);
      StepKeepsGeneration(Run(before, hasHostname), inputs[n]);
    }
  }

  lemma FreshActs(s: State, done: Input)
    requires done.LookupDone? && done.generation in s.lookups
    ensures Acts(s, done) <==> Fresh(s, done.generation)
  {
  }

  /** A lookup under way that is done opens a connection or reports a failure exactly if, since it was started, no other
      was started and the client was neither disconnected nor refused nor suspended, and it is alive, idle and awake. */
  lemma {:induction false} LookupActsExactly(inputs: seq<Input>, done: Input, hasHostname: bool) returns (i: nat)
    requires done.LookupDone? && done.generation in Run(inputs, hasHostname).lookups
    ensures i < |inputs| && StartsLookup(Run(inputs[..i], hasHostname), inputs[i], done.generation)
    ensures
      var s := Run(inputs, hasHostname);
      Acts(s, done) <==>
        && s.alive && s.link == Idle && !s.suspended
        && forall j :: i < j < |inputs| ==> !Renews(Run(inputs[..j], hasHostname), inputs[j])
  {
    hide Step, Run, CleansUp, StartsLookup, Sound, Acts, Renews;
    var s := Run(inputs, hasHostname);
    FreshActs(s, done);
    i := EveryLookupWasStarted(inputs, done.generation, hasHostname);
    StepHere(inputs, i, hasHostname);
    GenerationGrows(Run(inputs[..i], hasHostname), inputs[i], done.generation);
    if forall j :: i < j < |inputs| ==> !Renews(Run(inputs[..j], hasHostname), inputs[j]) {
      SameGeneration(inputs, i + 1, hasHostname);
    } else {
      var j :| i < j < |inputs| && Renews(Run(inputs[..j], hasHostname), inputs[j]);
      StepHere(inputs, j, hasHostname);
      StepKeepsGeneration(Run(inputs[..j], hasHostname), inputs[j]);
      StepIsSound(Run(inputs[..j], hasHostname), inputs[j]);
      GenerationBetween(inputs, i + 1, j, hasHostname);
      GenerationsGrow(inputs, j + 1, hasHostname);
    }
  }

  /** A lookup outlives a connection: it is started, the server address loses its hostname, a connection is opened
      directly and times out, and then the lookup is done and opens another one. */
  lemma LookupOutlivesConnection()
    ensures
      var inputs := [] + [Connect(NoSocket)] + [SetServerAddress(false)] + [Connect(Underway)];
      var later := inputs + [Event(Timer(1), TimerFired, true, false, Underway)];
      && Run(inputs, true).link == Connecting(0, 1) && Run(later, true).link == Idle
      && Step(Run(later, true), LookupDone(1, true, Underway)).link == Connecting(2, 3)
  {
    RunOne([], Connect(NoSocket), true);
    RunOne([] + [Connect(NoSocket)], SetServerAddress(false), true);
    RunOne([] + [Connect(NoSocket)] + [SetServerAddress(false)], Connect(Underway), true);
    RunOne([] + [Connect(NoSocket)] + [SetServerAddress(false)] + [Connect(Underway)],
           Event(Timer(1), TimerFired, true, false, Underway), true);
  }

  /** Every lookup under way was started by some step of the run. */
  lemma {:induction false} EveryLookupWasStarted(inputs: seq<Input>, g: nat, hasHostname: bool) returns (i: nat)
    requires g in Run(inputs, hasHostname).lookups
    ensures i < |inputs| && StartsLookup(Run(inputs[..i], hasHostname), inputs[i], g)
  {
    hide Step, StartsLookup;
    i := |inputs| - 1;
    var before := inputs[..i];
    StepHere(inputs, i, hasHostname);
    assert inputs[..i + 1] == inputs;
    NewLookup(Run(before, hasHostname), inputs[i], g);
    if g in Run(before, hasHostname).lookups {
      i := EveryLookupWasStarted(before, g, hasHostname);
      assert before[..i] == inputs[..i];
    }
  }

  lemma NewLookup(s: State, input: Input, g: nat)
    requires g in Step(s, input).lookups
    ensures g in s.lookups || StartsLookup(s, input, g)
  {
    hide Step, Sound;
    StepAdvances(s, input);
  }

  lemma ChangeMeansFresh(s: State, done: Input)
    requires done.LookupDone?
    requires Step(s, done).link != s.link || Step(s, done).sent != s.sent
    ensures s.alive && s.link == Idle && !s.suspended && s.generation == done.generation && done.generation in s.lookups
  {
  }

  /** Taking everything down and starting a lookup both begin a new generation. */
  lemma GenerationGrows(s: State, input: Input, g: nat)
    ensures CleansUp(s, input) ==> Step(s, input).generation > s.generation
    ensures StartsLookup(s, input, g) ==> Step(s, input).generation == g > s.generation
  {
    hide Step, Sound;
    StepAdvances(s, input);
    CleaningGrows(s, input);
  }

  lemma CleaningGrows(s: State, input: Input)
    ensures CleansUp(s, input) ==> Step(s, input).generation > s.generation
  {
    hide Connected, LookedUp, Resumed, OnStream;
  }

  lemma StepHere(inputs: seq<Input>, j: nat, hasHostname: bool)
    requires j < |inputs|
    ensures Run(inputs[..j + 1], hasHostname) == Step(Run(inputs[..j], hasHostname), inputs[j])
    ensures Sound(Run(inputs[..j], hasHostname))
  {
    assert inputs[..j + 1][..j] == inputs[..j];
    RunIsSound(inputs[..j], hasHostname);
  }

  lemma GenerationBetween(inputs: seq<Input>, i: nat, j: nat, hasHostname: bool)
    requires i <= j <= |inputs|
    ensures Run(inputs[..i], hasHostname).generation <= Run(inputs[..j], hasHostname).generation
    ensures Run(inputs[..i], hasHostname).nextId <= Run(inputs[..j], hasHostname).nextId
  {
    assert inputs[..j][..i] == inputs[..i];
    GenerationsGrow(inputs[..j], i, hasHostname);
  }

  /** The step asks for a connection once the client is resumed. */
  predicate AsksToResume(s: State, input: Input) {
    s.alive
    && ((input.Connect? && s.suspended)
        || (input.Event? && input.target.TheScreen? && input.kind.ScreenSuspend? && s.link.Serving? && !s.suspended))
  }

  /** The step settles the matter: it takes everything down, or it resumes. */
  predicate Settles(s: State, input: Input) {
    CleansUp(s, input)
    || (s.alive && s.suspended && input.Event? && input.target.TheScreen? && input.kind.ScreenResume?)
  }

  lemma RemembersStep(s: State, input: Input)
    requires Sound(s)
    ensures Step(s, input).connectOnResume <==>
      AsksToResume(s, input) || (s.connectOnResume && !Settles(s, input))
  {
  }

  /** Step `i` asked to connect, and none after it has settled the matter. */
  predicate Pending(inputs: seq<Input>, i: nat, hasHostname: bool)
    requires i < |inputs|
  {
    AsksToResume(Run(inputs[..i], hasHostname), inputs[i])
    && forall j :: i < j < |inputs| ==> !Settles(Run(inputs[..j], hasHostname), inputs[j])
  }

  lemma PendingStep(before: seq<Input>, input: Input, i: nat, hasHostname: bool)
    requires i < |before|
    ensures Pending(before + [input], i, hasHostname)
      <==> Pending(before, i, hasHostname) && !Settles(Run(before, hasHostname), input)
  {
    var inputs := before + [input];
    assert inputs[..|before|] == before;
    assert forall j :: 0 <= j <= |before| ==> before[..j] == inputs[..j];
  }

  /** A suspended client remembers to connect exactly if it was connected when it was suspended, or was asked to
      connect since, and has not been disconnected, refused or resumed after that. */
  lemma {:induction false} RemembersExactly(inputs: seq<Input>, hasHostname: bool)
    ensures Run(inputs, hasHostname).connectOnResume
      <==> exists i :: 0 <= i < |inputs| && Pending(inputs, i, hasHostname)
  {
    if inputs != [] {
      hide Step, AsksToResume, Settles, Sound, Pending;
      var n := |inputs| - 1;
      var before, input := inputs[..n], inputs[n];
      assert inputs == before + [input];
      RemembersExactly(before, hasHostname);
      RunIsSound(before, hasHostname);
      RunOne(before, input, hasHostname);
      RemembersStep(Run(before, hasHostname), input);
      forall i | 0 <= i < n
        ensures Pending(inputs, i, hasHostname)
          <==> Pending(before, i, hasHostname) && !Settles(Run(before, hasHostname), input)
      {
        PendingStep(before, input, i, hasHostname);
      }
      PendingLast(before, input, hasHostname);
      hide *;
    }
  }

  lemma PendingLast(before: seq<Input>, input: Input, hasHostname: bool)
    ensures Pending(before + [input], |before|, hasHostname) <==> AsksToResume(Run(before, hasHostname), input)
  {
    assert (before + [input])[..|before|] == before;
  }

  /** Resuming asks once for a connection if the client was connected when it was suspended, or was asked to connect
      since, and has not been disconnected or refused after that; otherwise it only wakes the client. */
  lemma ResumeConnectsOnce(inputs: seq<Input>, resume: Input, hasHostname: bool)
    requires resume.Event? && resume.target.TheScreen? && resume.kind.ScreenResume?
    requires Run(inputs, hasHostname).alive && Run(inputs, hasHostname).suspended
    ensures
      var awake := Run(inputs, hasHostname).(suspended := false, connectOnResume := false);
      Step(Run(inputs, hasHostname), resume) ==
        if exists i :: 0 <= i < |inputs| && Pending(inputs, i, hasHostname)
        then Step(awake, Connect(resume.net))
        else awake
  {
    RunIsSound(inputs, hasHostname);
    RemembersExactly(inputs, hasHostname);
  }

  // ---------- The hello ----------

  predicate AwaitsHello(link: Link, stream: nat) {
    (link.Connecting? || link.Greeting?) && link.stream == stream
  }

  /** The step hands a hello on `stream` to the client. */
  predicate HandlesHello(s: State, input: Input, stream: nat) {
    s.alive && s.link.Greeting? && input.Event? && input.target == Stream(stream) && s.link.stream == stream
    && input.kind.StreamInputReady?
  }

  lemma ConnectedHello(s: State, net: Net, stream: nat)
    requires stream < s.nextId && !AwaitsHello(s.link, stream)
    ensures !AwaitsHello(Connected(s, net).link, stream) && !AwaitsHello(Resumed(s, net).link, stream)
  {
  }

  lemma EventHello(s: State, input: Input, stream: nat)
    requires input.Event? && Sound(s) && stream < s.nextId
    ensures !AwaitsHello(s.link, stream) ==> !AwaitsHello(OnEvent(s, input).link, stream)
    ensures HandlesHello(s, input, stream) ==> !AwaitsHello(OnEvent(s, input).link, stream)
  {
    hide Connected, Resumed;
    if !AwaitsHello(s.link, stream) {
      ConnectedHello(s, input.net, stream);
    }
  }

  lemma HelloStep(s: State, input: Input, stream: nat)
    requires Sound(s) && stream < s.nextId
    ensures !AwaitsHello(s.link, stream) ==> !AwaitsHello(Step(s, input).link, stream)
    ensures HandlesHello(s, input, stream) ==> !AwaitsHello(Step(s, input).link, stream)
    ensures stream < Step(s, input).nextId
  {
    hide OnEvent, Connected, Sound;
    StepAdvances(s, input);
    match input {
      case Connect(net) => if !AwaitsHello(s.link, stream) { ConnectedHello(s, net, stream); }
      case Event(_, _, _, _, _) => EventHello(s, input, stream);
      case _ =>
    }
  }

  /** A stream that does not wait for a hello any more never does so again. */
  lemma {:induction false} NeverAwaitsAgain(inputs: seq<Input>, i: nat, stream: nat, hasHostname: bool)
    requires i <= |inputs|
    requires
      var s := Run(inputs[..i], hasHostname);
      !AwaitsHello(s.link, stream) && stream < s.nextId
    ensures !AwaitsHello(Run(inputs, hasHostname).link, stream) && stream < Run(inputs, hasHostname).nextId
    decreases |inputs|
  {
    if i == |inputs| {
      assert inputs[..i] == inputs;
    } else {
      hide Step, Sound, AwaitsHello;
      var before := inputs[..|inputs| - 1];
      assert before[..i] == inputs[..i];
      NeverAwaitsAgain(before, i, stream, hasHostname);
      RunIsSound(before, hasHostname);
      HelloStep(Run(before, hasHostname), inputs[|inputs| - 1], stream);
    }
  }

  /** No two steps of a run hand a hello on the same stream to the client, whatever became of the first one. */
  lemma HelloOnce(inputs: seq<Input>, i: nat, j: nat, stream: nat, hasHostname: bool)
    requires i < j < |inputs| && HandlesHello(Run(inputs[..i], hasHostname), inputs[i], stream)
    ensures !HandlesHello(Run(inputs[..j], hasHostname), inputs[j], stream)
  {
    StepHere(inputs, i, hasHostname);
    HelloStep(Run(inputs[..i], hasHostname), inputs[i], stream);
    assert inputs[..j][..i + 1] == inputs[..i + 1];
    NeverAwaitsAgain(inputs[..j], i + 1, stream, hasHostname);
  }

  // ---------- Being ready ----------

  /** The client is told that the handshake is complete although there is no proxy. */
  predicate Strays(s: State, input: Input) {
    s.alive && input.HandshakeComplete? && !s.link.Serving?
  }

  /** The step sets up a proxy. */
  predicate Serves(s: State, input: Input) {
    !s.link.Serving? && Step(s, input).link.Serving?
  }

  predicate ReadyAlone(s: State) {
    s.ready && !s.link.Serving?
  }

  lemma ConnectedReady(s: State, net: Net)
    ensures Connected(s, net).ready == s.ready && Connected(s, net).link.Serving? == s.link.Serving?
    ensures Resumed(s, net).ready == s.ready && Resumed(s, net).link.Serving? == s.link.Serving?
  {
  }

  lemma OnStreamReady(s: State, kind: Kind, known: bool, more: bool)
    ensures ReadyAlone(OnStream(s, kind, known, more)) <==> ReadyAlone(s) && !OnStream(s, kind, known, more).link.Serving?
  {
    hide Say;
    SayReady(s.(link := Idle), [ConnectionFailed]);
    SayReady(Down(s), [ClientDisconnected]);
    if s.link.Greeting? {
      SayReady(s.(link := Serving(s.link.stream), ready := false), if more then [MoreInput(s.link.stream)] else []);
    }
  }

  lemma SayReady(s: State, notices: seq<Notice>)
    ensures Say(s, notices).ready == s.ready && Say(s, notices).link == s.link
  {
  }

  lemma EventReady(s: State, input: Input)
    requires input.Event?
    ensures ReadyAlone(OnEvent(s, input)) <==> ReadyAlone(s) && !OnEvent(s, input).link.Serving?
  {
    hide Connected, Resumed, OnStream;
    ConnectedReady(s, input.net);
    OnStreamReady(s, input.kind, input.known, input.more);
  }

  lemma ReadyStep(s: State, input: Input)
    ensures ReadyAlone(Step(s, input)) <==> Strays(s, input) || (ReadyAlone(s) && !Serves(s, input))
  {
    hide OnEvent, Connected;
    match input {
      case Connect(net) => ConnectedReady(s, net);
      case Event(_, _, _, _, _) => EventReady(s, input);
      case _ =>
    }
  }

  /** Step `i` completed a handshake without a proxy, and none after it has set one up. */
  predicate Strayed(inputs: seq<Input>, i: nat, hasHostname: bool)
    requires i < |inputs|
  {
    Strays(Run(inputs[..i], hasHostname), inputs[i])
    && forall j :: i < j < |inputs| ==> !Serves(Run(inputs[..j], hasHostname), inputs[j])
  }

  lemma StrayedStep(before: seq<Input>, input: Input, i: nat, hasHostname: bool)
    requires i < |before|
    ensures Strayed(before + [input], i, hasHostname)
      <==> Strayed(before, i, hasHostname) && !Serves(Run(before, hasHostname), input)
  {
    var inputs := before + [input];
    assert inputs[..|before|] == before;
    assert forall j :: 0 <= j <= |before| ==> before[..j] == inputs[..j];
  }

  /** A client is ready without a proxy exactly if it was told that the handshake is complete while it had none, and
      has had none since. */
  lemma {:induction false} ReadyAloneExactly(inputs: seq<Input>, hasHostname: bool)
    ensures ReadyAlone(Run(inputs, hasHostname))
      <==> exists i :: 0 <= i < |inputs| && Strayed(inputs, i, hasHostname)
  {
    if inputs != [] {
      hide Step, Strays, Serves, ReadyAlone, Strayed;
      var n := |inputs| - 1;
      var before, input := inputs[..n], inputs[n];
      assert inputs == before + [input];
      ReadyAloneExactly(before, hasHostname);
      RunOne(before, input, hasHostname);
      ReadyStep(Run(before, hasHostname), input);
      forall i | 0 <= i < n
        ensures Strayed(inputs, i, hasHostname)
          <==> Strayed(before, i, hasHostname) && !Serves(Run(before, hasHostname), input)
      {
        StrayedStep(before, input, i, hasHostname);
      }
      StrayedLast(before, input, hasHostname);
      hide *;
    } else {
      assert !ReadyAlone(Start(hasHostname));
    }
  }

  lemma StrayedLast(before: seq<Input>, input: Input, hasHostname: bool)
    ensures Strayed(before + [input], |before|, hasHostname) <==> Strays(Run(before, hasHostname), input)
  {
    assert (before + [input])[..|before|] == before;
  }

  /** A client that is served and disconnected with a message, and then told that the handshake is complete, is ready
      with its screen enabled and has no proxy. */
  lemma ReadyAloneInput()
    ensures
      var inputs := [] + [Connect(Underway)] + [Event(Stream(0), DataSocketConnected, true, false, Underway)]
        + [Event(Stream(0), StreamInputReady, true, false, Underway)] + [Disconnect(true)] + [HandshakeComplete];
      var s := Run(inputs, false);
      ReadyAlone(s) && s.screenEnabled && s.link == Idle && s.sent == [ConnectionFailed, ClientConnected]
  {
    var a, b := Connect(Underway), Event(Stream(0), DataSocketConnected, true, false, Underway);
    var c := Event(Stream(0), StreamInputReady, true, false, Underway);
    RunOne([], a, false);
    RunOne([] + [a], b, false);
    RunOne([] + [a] + [b], c, false);
    RunOne([] + [a] + [b] + [c], Disconnect(true), false);
    RunOne([] + [a] + [b] + [c] + [Disconnect(true)], HandshakeComplete, false);
  }

  lemma RunOne(inputs: seq<Input>, input: Input, hasHostname: bool)
    ensures Run(inputs + [input], hasHostname) == Step(Run(inputs, hasHostname), input)
  {
    assert (inputs + [input])[..|inputs|] == inputs;
  }
}
