/** What each thing that can happen does to the connection of a client, and what the client reports of it. */
module ClientLaws {
  import opened Options
  import opened ClientSpec

  /** The step changes at most the connection and the flags that go with it, and reports `notices`. */
  predicate Only(s: State, s': State, link: Link, ready: bool, screenEnabled: bool, notices: seq<Notice>) {
    s' == s.(link := link, ready := ready, screenEnabled := screenEnabled, sent := s.sent + notices)
  }

  // ---------- How connections begin ----------

  /** An attempt on an idle client opens one stream and one timer, or reports one failure. */
  predicate Attempted(s: State, s': State, net: Net) {
    && (net == Underway ==>
          && s'.link == Connecting(s.nextId, s.nextId + 1) && s'.nextId == s.nextId + 2 && s'.sent == s.sent)
    && (net == SocketFails ==>
          s'.link == Idle && s'.nextId == s.nextId + 2 && s'.sent == s.sent + [ConnectionFailed])
    && (net == NoSocket ==>
          s'.link == Idle && s'.nextId == s.nextId && s'.sent == s.sent + [ConnectionFailed])
    && s'.ready == s.ready && s'.screenEnabled == s.screenEnabled
  }

  lemma OpenedAttempts(s: State, net: Net)
    requires s.link == Idle
    ensures Attempted(s, Opened(s, net), net)
    ensures Opened(s, net) == s.(link := Opened(s, net).link, nextId := Opened(s, net).nextId, sent := Opened(s, net).sent)
  {
  }

  /** In any run, a lookup under way that is done does something exactly if it was started with nothing since that makes
      it stale and the client is alive, idle and awake; then a failed lookup reports one failure and opens nothing, and
      a good one is an attempt to connect.  Otherwise it is only forgotten. */
  lemma {:induction false} LookupDecides(inputs: seq<Input>, done: Input, hasHostname: bool) returns (i: nat)
    requires done.LookupDone? && done.generation in Run(inputs, hasHostname).lookups
    ensures i < |inputs| && StartsLookup(Run(inputs[..i], hasHostname), inputs[i], done.generation)
    ensures
      var s := Run(inputs, hasHostname);
      var s' := Step(s, done);
      if s.alive && s.link == Idle && !s.suspended
         && forall j :: i < j < |inputs| ==> !Renews(Run(inputs[..j], hasHostname), inputs[j])
      then
        && (!done.found ==> s' == s.(lookups := s.lookups - {done.generation}, sent := s.sent + [ConnectionFailed]))
        && (done.found ==> Attempted(s, s', done.net))
      else s' == s.(lookups := s.lookups - {done.generation})
  {
    hide Run, StartsLookup, Renews, Sound, Acts, Step;
    var s := Run(inputs, hasHostname);
    i := LookupActsExactly(inputs, done, hasHostname);
    FreshActs(s, done);
    LookupOutcome(s, done);
  }

  lemma LookupOutcome(s: State, done: Input)
    requires done.LookupDone? && done.generation in s.lookups
    ensures
      var s' := Step(s, done);
      if s.alive && s.link == Idle && !s.suspended && done.generation == s.generation then
        && (!done.found ==> s' == s.(lookups := s.lookups - {done.generation}, sent := s.sent + [ConnectionFailed]))
        && (done.found ==> Attempted(s, s', done.net))
      else s' == s.(lookups := s.lookups - {done.generation})
  {
    hide Opened;
    if s.link == Idle {
      OpenedAttempts(s.(lookups := s.lookups - {done.generation}), done.net);
    }
  }

  /** Asked to connect, a client that has a connection does nothing, a suspended one remembers it, one whose server
      address names no host attempts it, and any other starts a lookup of a new generation. */
  lemma ConnectOutcome(s: State, net: Net)
    requires s.alive
    ensures
      var s' := Step(s, Connect(net));
      if s.link != Idle then s' == s
      else if s.suspended then s' == s.(connectOnResume := true)
      else if s.hasHostname then
        s' == s.(generation := s.generation + 1, lookups := s.lookups + {s.generation + 1})
      else Attempted(s, s', net)
  {
    if s.link == Idle {
      hide Opened;
      OpenedAttempts(s, net);
    }
  }

  /** The server address names a host as the last address that was set does. */
  lemma {:induction false} HostnameIsLast(inputs: seq<Input>, hasHostname: bool)
    ensures
      var s := Run(inputs, hasHostname);
      s.hasHostname == if inputs == [] then hasHostname
        else
          var before := Run(inputs[..|inputs| - 1], hasHostname);
          var last := inputs[|inputs| - 1];
          if before.alive && last.SetServerAddress? then last.hasHostname else before.hasHostname
  {
    if inputs != [] {
      hide Run;
      KeepsHostname(Run(inputs[..|inputs| - 1], hasHostname), inputs[|inputs| - 1]);
      RunOne(inputs[..|inputs| - 1], inputs[|inputs| - 1], hasHostname);
      assert inputs[..|inputs| - 1] + [inputs[|inputs| - 1]] == inputs;
    } else {
      assert Run([], hasHostname) == Start(hasHostname);
    }
  }

  lemma KeepsHostname(s: State, input: Input)
    ensures Step(s, input).hasHostname
         == if s.alive && input.SetServerAddress? then input.hasHostname else s.hasHostname
  {
    if input.Event? && s.alive {
      hide OnStream, Resumed, Suspended;
      StreamKeepsHostname(s, input.kind, input.known, input.more);
      ResumeKeepsHostname(s, input.net);
    } else if input.LookupDone? {
      hide Opened;
      OpenedKeepsHostname(s.(lookups := s.lookups - {input.generation}), input.net);
    } else if input.Connect? {
      hide Opened;
      OpenedKeepsHostname(s, input.net);
    }
  }

  lemma OpenedKeepsHostname(s: State, net: Net)
    ensures Opened(s, net).hasHostname == s.hasHostname
  {
  }

  lemma StreamKeepsHostname(s: State, kind: Kind, known: bool, more: bool)
    ensures OnStream(s, kind, known, more).hasHostname == s.hasHostname
  {
    hide Breaks, Say, Down;
    SayKeepsHostname(s.(link := Idle), [ConnectionFailed]);
    SayKeepsHostname(Down(s), [ClientDisconnected]);
    DownKeepsHostname(s);
    if s.link.Greeting? {
      SayKeepsHostname(s.(link := Serving(s.link.stream), ready := false),
                       if more then [MoreInput(s.link.stream)] else []);
    }
  }

  lemma SayKeepsHostname(s: State, notices: seq<Notice>)
    ensures Say(s, notices).hasHostname == s.hasHostname
  {
  }

  lemma DownKeepsHostname(s: State)
    ensures Down(s).hasHostname == s.hasHostname
  {
  }

  lemma ResumeKeepsHostname(s: State, net: Net)
    ensures Resumed(s, net).hasHostname == s.hasHostname && Suspended(s).hasHostname == s.hasHostname
  {
    hide Opened;
    OpenedKeepsHostname(s.(suspended := false, connectOnResume := false), net);
  }

  // ---------- What the events of a connection do ----------

  /** The events of the stream of a connection: it connects, it fails to, a hello comes, or it breaks, which is one of
      four kinds. */
  lemma StreamEvents(s: State, kind: Kind, known: bool, more: bool, net: Net)
    requires s.alive && s.link != Idle
    ensures
      var s' := Step(s, Event(Stream(s.link.stream), kind, known, more, net));
      && (s.link.Connecting? && kind.DataSocketConnected? ==>
            Only(s, s', Greeting(s.link.stream, s.link.timer), s.ready, s.screenEnabled, []))
      && (s.link.Connecting? && kind.DataSocketConnectionFailed? ==>
            Only(s, s', Idle, s.ready, s.screenEnabled, [ConnectionFailed]))
      && (s.link.Greeting? && kind.StreamInputReady? ==>
            if known then
              Only(s, s', Serving(s.link.stream), false, s.screenEnabled, if more then [MoreInput(s.link.stream)] else [])
            else Only(s, s', Idle, s.ready, s.screenEnabled, [ConnectionFailed]))
  {
  }

  /** A stream that is connected and breaks ends the connection, whichever of the four kinds reports it; a client that was
      served and ready ceases to be ready, and its screen is disabled. */
  lemma BrokenStream(s: State, kind: Kind, known: bool, more: bool, net: Net)
    requires s.alive && (s.link.Greeting? || s.link.Serving?)
    requires kind == SocketDisconnected || kind == StreamOutputError || kind == StreamInputShutdown
      || kind == StreamOutputShutdown
    ensures
      var s' := Step(s, Event(Stream(s.link.stream), kind, known, more, net));
      Only(s, s', Idle, s.ready && s.link.Greeting?, s.screenEnabled && !(s.ready && s.link.Serving?), [ClientDisconnected])
  {
  }

  /** The timer of a connection ends it as long as it runs: while connecting, and while waiting for the hello. */
  lemma TimedOut(s: State, known: bool, more: bool, net: Net)
    requires s.alive && (s.link.Connecting? || s.link.Greeting?)
    ensures
      var s' := Step(s, Event(Timer(s.link.timer), TimerFired, known, more, net));
      Only(s, s', Idle, s.ready, s.screenEnabled, [ConnectionFailed])
  {
  }

  /** Calls that end a connection, if there is one, and make lookups stale; and being destroyed. */
  lemma EndedByCall(s: State, message: bool)
    requires s.alive
    ensures
      var served := s.link.Serving? && s.ready;
      var down := s.(link := Idle, ready := s.ready && !served, screenEnabled := s.screenEnabled && !served);
      var clean := down.(generation := s.generation + 1, connectOnResume := false);
      && Step(s, Disconnect(message))
           == clean.(sent := s.sent + [if message then ConnectionFailed else ClientDisconnected])
      && Step(s, RefuseConnection(message)) == clean.(sent := s.sent + if message then [ConnectionRefused] else [])
      && Step(s, Destroy) == down.(alive := false)
  {
  }

  /** Suspending ends the connection as a disconnect does, and remembers whether the client was served; suspending again
      does nothing, nor does resuming a client that is awake. */
  lemma SuspendedOutcome(s: State, known: bool, more: bool, net: Net)
    requires s.alive
    ensures
      var served := s.link.Serving? && s.ready;
      Step(s, Event(TheScreen, ScreenSuspend, known, more, net)) ==
        if s.suspended then s
        else s.(link := Idle, ready := s.ready && !served, screenEnabled := s.screenEnabled && !served,
                generation := s.generation + 1, connectOnResume := s.link.Serving?, suspended := true,
                sent := s.sent + [ClientDisconnected])
    ensures !s.suspended ==> Step(s, Event(TheScreen, ScreenResume, known, more, net)) == s
  {
  }

  /** A completed handshake makes the client ready, enables the screen, and is reported. */
  lemma CompletedOutcome(s: State)
    requires s.alive
    ensures Only(s, Step(s, HandshakeComplete), s.link, true, true, [ClientConnected])
  {
  }

  // ---------- Nothing else ends or begins a connection ----------

  /** An event that means something to a client. */
  predicate Heard(s: State, input: Input)
    requires input.Event?
  {
    match input.target
    case TheScreen => input.kind == ScreenSuspend || input.kind == ScreenResume
    case Timer(timer) =>
      (s.link.Connecting? || s.link.Greeting?) && s.link.timer == timer && input.kind == TimerFired
    case Stream(stream) =>
      s.link != Idle && s.link.stream == stream
      && match s.link
         case Connecting(_, _) => input.kind == DataSocketConnected || input.kind == DataSocketConnectionFailed
         case Greeting(_, _) => input.kind == StreamInputReady || Ending(input.kind)
         case _ => Ending(input.kind)
  }

  /** The four kinds in which a stream breaks. */
  predicate Ending(kind: Kind) {
    kind == SocketDisconnected || kind == StreamOutputError || kind == StreamInputShutdown || kind == StreamOutputShutdown
  }

  /** Events for streams and timers of the past, and of any other kind, do nothing, nor does anything but the result of a
      lookup once the client is gone. */
  lemma NotHeard(s: State, input: Input)
    ensures input.Event? && !Heard(s, input) ==> Step(s, input) == s
    ensures !s.alive && !input.LookupDone? ==> Step(s, input) == s
  {
  }

  /** What ends the connection of a client. */
  predicate Loses(s: State, input: Input) {
    || input.Disconnect? || input.RefuseConnection? || input.Destroy?
    || (input.Event? &&
        match input.target
        case TheScreen => input.kind == ScreenSuspend
        case Timer(timer) => !s.link.Serving? && s.link != Idle && s.link.timer == timer && input.kind == TimerFired
        case Stream(stream) =>
          s.link != Idle && s.link.stream == stream
          && match s.link
             case Connecting(_, _) => input.kind == DataSocketConnectionFailed
             case Greeting(_, _) => (input.kind == StreamInputReady && !input.known) || Ending(input.kind)
             case _ => Ending(input.kind))
  }

  /** A connection ends exactly by what ends one, and until then it keeps its stream. */
  lemma LostExactly(s: State, input: Input)
    requires Sound(s) && s.link != Idle
    ensures Step(s, input).link == Idle <==> Loses(s, input)
    ensures Step(s, input).link != Idle ==> Step(s, input).link.stream == s.link.stream
  {
    hide Sound;
    assert s.alive && !s.suspended by { SoundLink(s); }
    match input {
      case LookupDone(_, _, _) => LookupKeepsLink(s, input);
      case Connect(net) => ConnectOutcome(s, net);
      case Disconnect(message) => EndedByCall(s, message);
      case RefuseConnection(message) => EndedByCall(s, message);
      case Destroy => EndedByCall(s, false);
      case HandshakeComplete => CompletedOutcome(s);
      case SetServerAddress(_) => AddressKeepsLink(s, input);
      case Event(target, kind, known, more, net) => EventLoses(s, target, kind, known, more, net);
    }
    hide *;
  }

  lemma SoundLink(s: State)
    requires Sound(s) && s.link != Idle
    ensures s.alive && !s.suspended
  {
  }

  lemma LookupKeepsLink(s: State, input: Input)
    requires s.link != Idle && input.LookupDone?
    ensures Step(s, input).link == s.link
  {
  }

  lemma AddressKeepsLink(s: State, input: Input)
    requires input.SetServerAddress?
    ensures Step(s, input).link == s.link
  {
  }

  lemma EventLoses(s: State, target: Target, kind: Kind, known: bool, more: bool, net: Net)
    requires s.alive && !s.suspended && s.link != Idle
    ensures
      var input := Event(target, kind, known, more, net);
      && (Step(s, input).link == Idle <==> Loses(s, input))
      && (Step(s, input).link != Idle ==> Step(s, input).link.stream == s.link.stream)
  {
    var input := Event(target, kind, known, more, net);
    if !Heard(s, input) {
      NotHeard(s, input);
    } else if target.TheScreen? {
      SuspendedOutcome(s, known, more, net);
    } else if target.Timer? {
      TimedOut(s, known, more, net);
    } else if Ending(kind) {
      BrokenStream(s, kind, known, more, net);
    } else {
      StreamEvents(s, kind, known, more, net);
    }
    hide Step, OnEvent;
  }

  /** What begins a connection of an idle client. */
  predicate Gains(s: State, input: Input) {
    s.alive && s.link == Idle
    && match input
       case Connect(net) => !s.suspended && !s.hasHostname && net == Underway
       case LookupDone(generation, found, net) =>
         !s.suspended && generation in s.lookups && generation == s.generation && found && net == Underway
       case Event(TheScreen, kind, _, _, net) =>
         kind == ScreenResume && s.suspended && s.connectOnResume && !s.hasHostname && net == Underway
       case _ => false
  }

  /** A connection begins exactly by an attempt that gets under way, and with a stream and a timer that are new. */
  lemma GainedExactly(s: State, input: Input)
    requires s.link == Idle
    ensures Step(s, input).link != Idle <==> Gains(s, input)
    ensures Step(s, input).link != Idle ==> Step(s, input).link == Connecting(s.nextId, s.nextId + 1)
  {
    if input.LookupDone? {
      if input.generation in s.lookups {
        LookupOutcome(s, input);
      }
    } else if !s.alive {
      NotHeard(s, input);
    } else {
      match input {
        case Connect(net) => ConnectOutcome(s, net);
        case Disconnect(message) => EndedByCall(s, message);
        case RefuseConnection(message) => EndedByCall(s, message);
        case Destroy => EndedByCall(s, false);
        case HandshakeComplete => CompletedOutcome(s);
        case SetServerAddress(_) => AddressKeepsLink(s, input);
        case Event(target, kind, known, more, net) =>
          if target.TheScreen? && kind == ScreenSuspend {
            SuspendedOutcome(s, known, more, net);
          } else if target.TheScreen? && kind == ScreenResume {
            if s.suspended {
              ResumedOutcome(s, known, more, net);
            } else {
              SuspendedOutcome(s, known, more, net);
            }
          } else {
            NotHeard(s, input);
          }
      }
    }
  }

  /** Resuming wakes the client, and is being asked to connect if the client remembers to. */
  lemma ResumedOutcome(s: State, known: bool, more: bool, net: Net)
    requires s.alive && s.suspended
    ensures
      var awake := s.(suspended := false, connectOnResume := false);
      Step(s, Event(TheScreen, ScreenResume, known, more, net))
        == if s.connectOnResume then Step(awake, Connect(net)) else awake
    ensures s.link == Idle && s.connectOnResume && !s.hasHostname ==>
      Attempted(s.(suspended := false, connectOnResume := false),
                Step(s, Event(TheScreen, ScreenResume, known, more, net)), net)
  {
    ConnectOutcome(s.(suspended := false, connectOnResume := false), net);
  }

  /** In every run: when the stream of a client that waits for the hello or is served breaks, the connection is gone, no
      served client is left ready, the screen of one that was is disabled, and exactly one notice says so. */
  lemma {:induction false} BrokenInRun(inputs: seq<Input>, broken: Input, hasHostname: bool)
    requires
      var link := Run(inputs, hasHostname).link;
      && (link.Greeting? || link.Serving?)
      && broken.Event? && broken.target == Stream(link.stream) && Ending(broken.kind)
    ensures
      var s, s' := Run(inputs, hasHostname), Run(inputs + [broken], hasHostname);
      Only(s, s', Idle, s.ready && s.link.Greeting?, s.screenEnabled && !(s.ready && s.link.Serving?), [ClientDisconnected])
  {
    var s := Run(inputs, hasHostname);
    RunIsSound(inputs, hasHostname);
    RunOne(inputs, broken, hasHostname);
    BrokenStream(s, broken.kind, broken.known, broken.more, broken.net);
  }

  /** In every run, the connections that were begun are those that ended and the one there is. */
  lemma {:induction false} EveryConnectionEndsOnce(inputs: seq<Input>, hasHostname: bool)
    ensures Begun(inputs, hasHostname) == Ended(inputs, hasHostname)
      + if Run(inputs, hasHostname).link == Idle then 0 else 1
  {
    if inputs != [] {
      hide Step, Loses, Gains, Sound;
      var before, last := inputs[..|inputs| - 1], inputs[|inputs| - 1];
      var s := Run(before, hasHostname);
      EveryConnectionEndsOnce(before, hasHostname);
      RunIsSound(before, hasHostname);
      if s.link == Idle {
        GainedExactly(s, last);
      } else {
        LostExactly(s, last);
      }
    }
  }

  /** How many steps of the run were attempts of an idle client that got under way. */
  function Begun(inputs: seq<Input>, hasHostname: bool): nat {
    if inputs == [] then 0
    else
      var before, last := inputs[..|inputs| - 1], inputs[|inputs| - 1];
      Begun(before, hasHostname) + if Gains(Run(before, hasHostname), last) then 1 else 0
  }

  /** How many steps of the run ended a connection that there was. */
  function Ended(inputs: seq<Input>, hasHostname: bool): nat {
    if inputs == [] then 0
    else
      var before, last := inputs[..|inputs| - 1], inputs[|inputs| - 1];
      var s := Run(before, hasHostname);
      Ended(before, hasHostname) + if s.link != Idle && Loses(s, last) then 1 else 0
  }
}
