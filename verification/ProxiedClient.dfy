/** The client at the other end of the calls of its server proxy. */
module ProxiedClients {
  import opened Options
  import opened Coalescing
  import opened ServerProxies
  import Modifiers
  import C = ClientSpec

  // ---------- What the calls do to the connection of the client ----------

  /** The calls that end a connection or complete its handshake; all others leave the connection as it is. */
  predicate Telling(call: Call) {
    call.Disconnect? || call.RefuseConnection? || call.HandshakeComplete?
  }

  function Tell(s: C.State, call: Call): C.State {
    match call
    case Disconnect(message) => C.Step(s, C.Disconnect(message))
    case RefuseConnection(_) => C.Step(s, C.RefuseConnection(true))
    case HandshakeComplete => C.Step(s, C.Input.HandshakeComplete)
    case _ => s
  }

  function TellAll(s: C.State, calls: seq<Call>): C.State {
    if calls == [] then s else Tell(TellAll(s, calls[..|calls| - 1]), calls[|calls| - 1])
  }

  lemma {:induction false} TellMore(s: C.State, a: seq<Call>, b: seq<Call>)
    ensures TellAll(s, a + b) == TellAll(TellAll(s, a), b)
  {
    hide Tell;
    if b == [] {
      assert a + b == a;
    } else {
      TellMore(s, a, b[..|b| - 1]);
      assert (a + b)[..|a + b| - 1] == a + b[..|b| - 1];
    }
  }

  lemma {:induction false} TellNothing(s: C.State, calls: seq<Call>)
    requires forall c :: c in calls ==> !Telling(c)
    ensures TellAll(s, calls) == s
  {
    if calls != [] {
      TellNothing(s, calls[..|calls| - 1]);
      assert calls[|calls| - 1] in calls;
    }
  }

  // ---------- The same, input by input ----------

  function TellInput(s: C.State, input: Input): C.State {
    if input.Plain? then Tell(s, input.call) else s
  }

  function TellInputs(s: C.State, inputs: seq<Input>): C.State {
    if inputs == [] then s else TellInput(TellInputs(s, inputs[..|inputs| - 1]), inputs[|inputs| - 1])
  }

  lemma {:induction false} TellInputsMore(s: C.State, a: seq<Input>, b: seq<Input>)
    ensures TellInputs(s, a + b) == TellInputs(TellInputs(s, a), b)
  {
    hide TellInput;
    if b == [] {
      assert a + b == a;
    } else {
      TellInputsMore(s, a, b[..|b| - 1]);
      assert (a + b)[..|a + b| - 1] == a + b[..|b| - 1];
    }
  }

  predicate AllWellFormed(inputs: seq<Input>) {
    forall i :: 0 <= i < |inputs| ==> WellFormedInput(inputs[i])
  }

  lemma NextSends(p: Proxy, input: Input) returns (more: seq<Call>)
    requires WellFormedInput(input)
    ensures Next(p, input).calls == p.calls + more
    ensures input.Plain? ==> more == [input.call]
    ensures !input.Plain? ==> forall c :: c in more ==> !Telling(c)
  {
    match input
    case Absolute(to, _) => more := if Next(p, input).calls == p.calls then [] else [MouseMove(to)];
    case Relative(delta, _) => more := if Next(p, input).calls == p.calls then [] else [MouseRelativeMove(delta)];
    case Entering(enter) => more := [enter];
    case AfterFlush(after) =>
      more := Flushed(p.pending) + after;
      assert p.calls + Flushed(p.pending) + after == p.calls + more;
    case Plain(call) => more := [call];
    case Ignoring(_) => more := [];
  }

  lemma TellOne(s: C.State, call: Call)
    ensures TellAll(s, [call]) == Tell(s, call)
  {
    assert [call][..0] == [];
  }

  /** Motion that is held back or sent, and whatever waits for it, tells the client nothing about its connection. */
  lemma NextTells(s: C.State, p: Proxy, input: Input)
    requires WellFormedInput(input)
    ensures TellAll(s, Next(p, input).calls) == TellInput(TellAll(s, p.calls), input)
  {
    hide Next, Tell, TellAll, WellFormedInput, Telling;
    var more := NextSends(p, input);
    TellMore(s, p.calls, more);
    if input.Plain? {
      TellOne(TellAll(s, p.calls), input.call);
    } else {
      TellNothing(TellAll(s, p.calls), more);
    }
  }

  /** The calls of a run tell the client what its inputs do. */
  lemma {:induction false} RunTells(s: C.State, inputs: seq<Input>)
    requires AllWellFormed(inputs)
    ensures TellAll(s, Run(inputs).calls) == TellInputs(s, inputs)
  {
    if inputs != [] {
      hide Next, TellInput, WellFormedInput;
      RunTells(s, inputs[..|inputs| - 1]);
      NextTells(s, Run(inputs[..|inputs| - 1]), inputs[|inputs| - 1]);
    }
  }

  // ---------- What the messages of the server do ----------

  /** Inputs that tell the client nothing about its connection. */
  predicate Mute(inputs: seq<Input>) {
    forall i :: 0 <= i < |inputs| ==> WellFormedInput(inputs[i]) && (inputs[i].Plain? ==> !Telling(inputs[i].call))
  }

  lemma {:induction false} MuteTells(s: C.State, inputs: seq<Input>)
    requires Mute(inputs)
    ensures TellInputs(s, inputs) == s
  {
    if inputs != [] {
      MuteTells(s, inputs[..|inputs| - 1]);
    }
  }

  predicate Goodbye(call: Call) {
    call.Disconnect? || call.RefuseConnection?
  }

  /** What most messages tell the client: nothing, or a goodbye at the end. */
  predicate Tame(mode: Mode, e: Effect) {
    e.mode.parser == mode.parser
    && if e.mode.connected then Mute(e.inputs) && !e.result.Ended?
       else e.inputs != [] && Mute(e.inputs[..|e.inputs| - 1]) && e.inputs[|e.inputs| - 1].Plain?
            && Goodbye(e.inputs[|e.inputs| - 1].call) && e.result.Ended?
  }

  lemma EndTame(mode: Mode, inputs: seq<Input>, call: Call)
    requires Mute(inputs) && Goodbye(call)
    ensures Tame(mode, End(mode, inputs, call))
  {
    assert (inputs + [Plain(call)])[..|inputs|] == inputs;
  }

  lemma StayTame(mode: Mode, table: seq<Modifiers.ModifierID>, inputs: seq<Input>, result: Result)
    requires Mute(inputs) && mode.connected && !result.Ended?
    ensures Tame(mode, Effect(mode.(table := table), inputs, result)) && Tame(mode, Effect(mode, inputs, result))
  {
  }

  lemma ReadingTame(mode: Mode, body: Body, inputs: seq<Input>)
    requires Mute(inputs) && mode.connected
    ensures Tame(mode, Reading(mode, body, inputs)) && Tame(mode, Tolerating(mode, body, inputs))
  {
    hide Tame, End, Mute;
    assert Mute([]) by { NothingMute(); }
    EndTame(mode, [], Disconnect(true));
    StayTame(mode, mode.table, inputs, Okay);
  }

  lemma NothingMute()
    ensures Mute([])
  {
  }

  /** Bringing the cursor up to date, and a call at the cursor after that. */
  lemma AtCursorMute(call: Call)
    requires AtCursor(call) && !call.Enter?
    ensures Mute([AfterFlush([])]) && Mute([AfterFlush([])] + [AfterFlush([call])]) && Mute([AfterFlush([])] + [])
  {
  }

  lemma FlushingTame(mode: Mode, body: Body, inputs: seq<Input>)
    requires Mute([AfterFlush([])] + inputs) && Mute([AfterFlush([])]) && mode.connected
    ensures Tame(mode, Flushing(mode, body, inputs))
  {
    hide Tame, End, Mute;
    EndTame(mode, [AfterFlush([])], Disconnect(true));
    StayTame(mode, mode.table, [AfterFlush([])] + inputs, Okay);
  }

  lemma KeyDownTame(mode: Mode, call: Call, frame: Frame)
    requires AtCursor(call) && !call.Enter? && mode.connected
    ensures Tame(mode, KeyDownEffect(mode, call, frame))
  {
    hide Tame, End, Mute;
    AtCursorMute(call);
    NothingMute();
    EndTame(mode, [], Disconnect(true));
    StayTame(mode, mode.table, [AfterFlush([])] + if frame.dropped then [] else [AfterFlush([call])], Okay);
  }

  lemma OptionsTame(mode: Mode, options: seq<Modifiers.Word>, body: Body)
    requires Modifiers.IsTable(mode.table) && mode.connected
    ensures Tame(mode, OptionsEffect(mode, options, body))
  {
    hide Tame, End, Mute, Modifiers.AfterOptions;
    NothingMute();
    PlainMute(SetOptions(options));
    EndTame(mode, [], Disconnect(true));
    StayTame(mode, mode.table, [], Okay);
    StayTame(mode, Modifiers.AfterOptions(mode.table, options), [Plain(SetOptions(options))], Okay);
  }

  lemma PlainMute(call: Call)
    requires WellFormedInput(Plain(call)) && !Telling(call)
    ensures Mute([Plain(call)])
  {
  }

  lemma MotionMute(to: Point, ready: bool, on: bool, enter: Call)
    requires enter.Enter?
    ensures Mute([Absolute(to, ready)]) && Mute([Relative(to, ready)]) && Mute([Entering(enter)]) && Mute([Ignoring(on)])
  {
  }

  lemma OtherTame(mode: Mode, frame: Frame)
    requires Modifiers.IsTable(mode.table) && mode.connected
    ensures Tame(mode, OtherEffect(mode, frame))
  {
    hide Tame, Mute, End, Reading, Tolerating, ControlEffect;
    NothingMute();
    match frame.message
    case CScreenSaver(on) =>
      PlainMute(ScreenSaver(on));
      ReadingTame(mode, frame.body, [Plain(ScreenSaver(on))]);
    case CClipboard(id) =>
      PlainMute(GrabClipboard(id));
      ReadingTame(mode, frame.body, if id < CLIPBOARDS then [Plain(GrabClipboard(id))] else []);
    case DClipboard(id, state) =>
      PlainMute(SetClipboard(id));
      EndTame(mode, [], Disconnect(true));
      StayTame(mode, mode.table, if state.Finished? then [Plain(SetClipboard(id))] else [], Okay);
    case DDragInfo => ReadingTame(mode, frame.body, []);
    case DFileTransfer(written) =>
      PlainMute(OfferReceivedFiles);
      ReadingTame(mode, frame.body, if written then [Plain(OfferReceivedFiles)] else []);
    case _ => ControlTame(mode, frame);
  }

  lemma ControlTame(mode: Mode, frame: Frame)
    requires Modifiers.IsTable(mode.table) && mode.connected
    ensures Tame(mode, ControlEffect(mode, frame))
  {
    hide Tame, Mute, End, Reading, OptionsEffect;
    NothingMute();
    match frame.message
    case DSetOptions(options) => OptionsTame(mode, options, frame.body);
    case CResetOptions =>
      PlainMute(ResetOptions);
      StayTame(mode, Modifiers.IDENTITY, [Plain(ResetOptions)], Okay);
    case CInfoAck =>
      MotionMute(ORIGIN, false, false, Enter(ORIGIN, 0, {}));
      StayTame(mode, mode.table, [Ignoring(false)], Okay);
    case DSecureInputNotification => ReadingTame(mode, frame.body, []);
    case CClose => EndTame(mode, [], Disconnect(false));
    case EBad => EndTame(mode, [], Disconnect(true));
    case _ =>
      StayTame(mode, mode.table, [], Okay);
      StayTame(mode, mode.table, [], Unknown);
  }

  lemma MessageTame(mode: Mode, frame: Frame)
    requires Modifiers.IsTable(mode.table) && mode.connected
    ensures Tame(mode, MessageEffect(mode, frame))
  {
    hide Tame, Mute, Reading, Flushing, KeyDownEffect, KeyDownOf, KeyRepeatOf, KeyUpOf, OtherEffect;
    match frame.message
    case DMouseMove(to) =>
      MotionMute(to, frame.ready, false, Enter(ORIGIN, 0, {}));
      ReadingTame(mode, frame.body, [Absolute(to, frame.ready)]);
    case DMouseRelMove(delta) =>
      MotionMute(delta, frame.ready, false, Enter(ORIGIN, 0, {}));
      ReadingTame(mode, frame.body, [Relative(delta, frame.ready)]);
    case CEnter(at, seqNum, mask) =>
      MotionMute(at, false, false, Enter(at, seqNum, mask));
      ReadingTame(mode, frame.body, [Entering(Enter(at, seqNum, mask))]);
    case DMouseWheel(wheel) => AtCursorTame(mode, MouseWheel(wheel), frame.body);
    case DMouseDown(button) => AtCursorTame(mode, MouseDown(button), frame.body);
    case DMouseUp(button) => AtCursorTame(mode, MouseUp(button), frame.body);
    case CLeave => AtCursorTame(mode, Leave, Complete);
    case DKeyUp(key, mask, button) =>
      KeysAtCursor(mode, key, mask, 0, button, "");
      AtCursorTame(mode, KeyUpOf(mode, key, mask, button), frame.body);
    case DKeyDown(key, mask, button) =>
      KeysAtCursor(mode, key, mask, 0, button, "");
      KeyDownTame(mode, KeyDownOf(mode, key, mask, button, ""), frame);
    case DKeyDownLang(key, mask, button, lang) =>
      KeysAtCursor(mode, key, mask, 0, button, lang);
      KeyDownTame(mode, KeyDownOf(mode, key, mask, button, lang), frame);
    case DKeyRepeat(key, mask, count, button, lang) =>
      KeysAtCursor(mode, key, mask, count, button, lang);
      AtCursorTame(mode, KeyRepeatOf(mode, key, mask, count, button, lang), frame.body);
    case _ => OtherTame(mode, frame);
  }

  lemma KeysAtCursor(mode: Mode, key: Modifiers.KeyID, mask: Modifiers.Mask, count: int, button: int, lang: string)
    requires Modifiers.IsTable(mode.table)
    ensures KeyDownOf(mode, key, mask, button, lang).KeyDown? && KeyUpOf(mode, key, mask, button).KeyUp?
    ensures KeyRepeatOf(mode, key, mask, count, button, lang).KeyRepeat?
  {
  }

  lemma AtCursorTame(mode: Mode, call: Call, body: Body)
    requires AtCursor(call) && !call.Enter? && mode.connected
    ensures Tame(mode, Flushing(mode, body, [AfterFlush([call])])) && Tame(mode, Flushing(mode, body, []))
  {
    hide Tame, Mute, Flushing;
    AtCursorMute(call);
    FlushingTame(mode, body, [AfterFlush([call])]);
    FlushingTame(mode, body, []);
  }

  lemma HandshakeTame(mode: Mode, frame: Frame)
    requires Modifiers.IsTable(mode.table) && mode.connected && !frame.message.DSetOptions?
    ensures Tame(mode, HandshakeEffect(mode, frame))
  {
    hide Tame, Mute, End, Reading;
    NothingMute();
    match frame.message
    case CInfoAck =>
      MotionMute(ORIGIN, false, false, Enter(ORIGIN, 0, {}));
      StayTame(mode, mode.table, [Ignoring(false)], Okay);
    case CResetOptions =>
      PlainMute(ResetOptions);
      StayTame(mode, Modifiers.IDENTITY, [Plain(ResetOptions)], Okay);
    case CClose => EndTame(mode, [], Disconnect(false));
    case EIncompatible =>
      EndTame(mode, [], if frame.body.Complete? then RefuseConnection(IncompatibleVersion) else Disconnect(true));
    case EBusy => EndTame(mode, [], RefuseConnection(AlreadyConnected));
    case EUnknown => EndTame(mode, [], RefuseConnection(UnknownClient));
    case EBad => EndTame(mode, [], RefuseConnection(ProtocolError));
    case DLanguageSynchronisation => ReadingTame(mode, frame.body, []);
    case _ =>
      StayTame(mode, mode.table, [], Okay);
      StayTame(mode, mode.table, [], Unknown);
  }

  // ---------- The connection of the client, message by message ----------

  /** A message in the handshake that sets options and ends too early. */
  predicate CutOptions(parser: Parser, frame: Frame) {
    parser.ParseHandshake? && frame.message.DSetOptions? && frame.body.Truncated?
  }

  /** While the proxy is connected the client is served, and ready when the handshake is complete. */
  predicate Served(s: C.State, mode: Mode) {
    s.alive && s.link.Serving? && (s.ready <==> mode.parser.ParseMessages?)
  }

  /** After the goodbye the client is idle; `alone` says that it is ready all the same. */
  predicate Left(s: C.State, alone: bool) {
    s.alive && s.link == C.Idle && s.ready == alone
  }

  lemma GoodbyeTold(s: C.State, mode: Mode, call: Call)
    requires Served(s, mode) && Goodbye(call)
    ensures Left(Tell(s, call), false)
  {
  }

  lemma CompletionTold(s: C.State)
    requires s.alive
    ensures var s' := Tell(s, Call.HandshakeComplete); s'.alive && s'.link == s.link && s'.ready
  {
  }

  lemma TameTold(s: C.State, mode: Mode, e: Effect)
    requires Served(s, mode) && Tame(mode, e)
    ensures AllWellFormed(e.inputs)
    ensures if e.mode.connected then TellInputs(s, e.inputs) == s && Served(s, e.mode)
            else Left(TellInputs(s, e.inputs), false)
  {
    hide Tell;
    if e.mode.connected {
      MuteTells(s, e.inputs);
    } else {
      var n := |e.inputs| - 1;
      MuteTells(s, e.inputs[..n]);
      GoodbyeTold(s, mode, e.inputs[n].call);
      assert forall i :: 0 <= i < n ==> e.inputs[i] == e.inputs[..n][i];
    }
  }

  lemma TellInputsOne(s: C.State, inputs: seq<Input>, input: Input)
    ensures TellInputs(s, inputs + [input]) == TellInput(TellInputs(s, inputs), input)
  {
    assert (inputs + [input])[..|inputs|] == inputs;
  }

  lemma OptionsTold(s: C.State, mode: Mode, frame: Frame)
    requires Modifiers.IsTable(mode.table) && mode.connected && mode.parser.ParseHandshake?
    requires frame.message.DSetOptions? && Served(s, mode)
    ensures
      var e := HandshakeEffect(mode, frame);
      && AllWellFormed(e.inputs)
      && if e.mode.connected then Served(TellInputs(s, e.inputs), e.mode) && !CutOptions(mode.parser, frame)
         else Left(TellInputs(s, e.inputs), CutOptions(mode.parser, frame))
  {
    hide Tell, Tame, TellInputs, OptionsEffect;
    var e := OptionsEffect(mode, frame.message.options, frame.body);
    OptionsTame(mode, frame.message.options, frame.body);
    TameTold(s, mode, e);
    OptionsEnd(mode, frame.message.options, frame.body);
    if !frame.body.Illegal? {
      TellInputsOne(s, e.inputs, Plain(Call.HandshakeComplete));
      CompletionTold(TellInputs(s, e.inputs));
    }
  }

  lemma OptionsEnd(mode: Mode, options: seq<Modifiers.Word>, body: Body)
    requires Modifiers.IsTable(mode.table) && mode.connected
    ensures OptionsEffect(mode, options, body).mode.connected <==> body.Complete?
  {
  }

  lemma FrameTold(s: C.State, mode: Mode, frame: Frame)
    requires Modifiers.IsTable(mode.table) && mode.connected && Served(s, mode)
    ensures
      var e := FrameEffect(mode, frame);
      && AllWellFormed(e.inputs)
      && if e.mode.connected then Served(TellInputs(s, e.inputs), e.mode) && !CutOptions(mode.parser, frame)
         else Left(TellInputs(s, e.inputs), CutOptions(mode.parser, frame))
  {
    hide HandshakeEffect, MessageEffect, Tame, TellInputs, AllWellFormed;
    if mode.parser.ParseMessages? {
      MessageTame(mode, frame);
      TameTold(s, mode, MessageEffect(mode, frame));
    } else if frame.message.DSetOptions? {
      OptionsTold(s, mode, frame);
    } else {
      HandshakeTame(mode, frame);
      TameTold(s, mode, HandshakeEffect(mode, frame));
    }
  }

  // ---------- Batches and runs ----------

  /** The last message of a batch that is handled, and how it was parsed. */
  function LastOf(mode: Mode, frames: seq<Frame>): Option<(Parser, Frame)>
    requires Modifiers.IsTable(mode.table)
    decreases |frames|
  {
    if frames == [] then None
    else
      var e := FrameEffect(mode, frames[0]);
      if e.result.Okay? && LastOf(e.mode, frames[1..]).Some? then LastOf(e.mode, frames[1..])
      else Some((mode.parser, frames[0]))
  }

  predicate Cut(last: Option<(Parser, Frame)>) {
    last.Some? && CutOptions(last.value.0, last.value.1)
  }

  lemma WellFormedMore(a: seq<Input>, b: seq<Input>)
    requires AllWellFormed(a) && AllWellFormed(b)
    ensures AllWellFormed(a + b)
  {
  }

  lemma FlushWellFormed()
    ensures AllWellFormed([AfterFlush([])]) && AllWellFormed([Plain(Call.Disconnect(true))])
  {
  }

  lemma {:induction false} BatchTold(s: C.State, mode: Mode, frames: seq<Frame>, rest: nat)
    requires Modifiers.IsTable(mode.table) && mode.connected && Served(s, mode)
    ensures
      var e := BatchEffect(mode, frames, rest);
      && AllWellFormed(e.inputs)
      && if e.mode.connected then Served(TellInputs(s, e.inputs), e.mode) && !Cut(LastOf(mode, frames))
         else Left(TellInputs(s, e.inputs), Cut(LastOf(mode, frames)))
    decreases |frames|
  {
    hide FrameEffect, AllWellFormed, CutOptions, TellInputs, Served, Left;
    FlushWellFormed();
    if frames == [] {
      QuietTold(s, []);
      GoodbyeInput(s, mode);
      WellFormedMore([], [Plain(Call.Disconnect(true))]);
    } else {
      var e := FrameEffect(mode, frames[0]);
      var s' := TellInputs(s, e.inputs);
      FrameTold(s, mode, frames[0]);
      WellFormedMore(e.inputs, [AfterFlush([])]);
      QuietTold(s, e.inputs);
      if e.result.Okay? {
        BatchTold(s', e.mode, frames[1..], rest);
        var f := BatchEffect(e.mode, frames[1..], rest);
        WellFormedMore(e.inputs, f.inputs);
        TellInputsMore(s, e.inputs, f.inputs);
      }
    }
  }

  /** Bringing the cursor up to date tells nothing. */
  lemma QuietTold(s: C.State, inputs: seq<Input>)
    ensures TellInputs(s, inputs + [AfterFlush([])]) == TellInputs(s, inputs)
    ensures TellInputs(s, [AfterFlush([])]) == s
  {
    TellInputsOne(s, inputs, AfterFlush([]));
    TellInputsOne(s, [], AfterFlush([]));
    assert [] + [AfterFlush([])] == [AfterFlush([])];
  }

  lemma GoodbyeInput(s: C.State, mode: Mode)
    requires Served(s, mode)
    ensures Left(TellInputs(s, [] + [Plain(Call.Disconnect(true))]), false)
  {
    TellInputsOne(s, [], Plain(Call.Disconnect(true)));
    GoodbyeTold(s, mode, Call.Disconnect(true));
  }

  /** The last message that is handled in a run, and how it was parsed. */
  function LastHandled(events: seq<Event>): Option<(Parser, Frame)> {
    if events == [] then None
    else
      var before, event := events[..|events| - 1], events[|events| - 1];
      var mode := RunEffect(before).mode;
      if mode.connected && event.Data? && LastOf(mode, event.frames).Some? then LastOf(mode, event.frames)
      else LastHandled(before)
  }

  lemma {:induction false} RunTold(s: C.State, events: seq<Event>)
    requires Served(s, FIRST)
    ensures
      var e := RunEffect(events);
      && AllWellFormed(e.inputs)
      && if e.mode.connected then Served(TellInputs(s, e.inputs), e.mode) && !Cut(LastHandled(events))
         else Left(TellInputs(s, e.inputs), Cut(LastHandled(events)))
  {
    if events != [] {
      hide AllWellFormed, BatchEffect, LastOf, CutOptions, TellInputs, Served, Left;
      var before, event := events[..|events| - 1], events[|events| - 1];
      var e := RunEffect(before);
      RunTold(s, before);
      if e.mode.connected {
        var s' := TellInputs(s, e.inputs);
        if event.Data? {
          BatchTold(s', e.mode, event.frames, event.rest);
          var f := BatchEffect(e.mode, event.frames, event.rest);
          WellFormedMore(e.inputs, f.inputs);
          TellInputsMore(s, e.inputs, f.inputs);
          NoneIsEmpty(e.mode, event.frames, event.rest);
        } else {
          IgnoringTold(s, e.inputs);
          WellFormedMore(e.inputs, [Ignoring(true)]);
        }
      }
    }
  }

  lemma NoneIsEmpty(mode: Mode, frames: seq<Frame>, rest: nat)
    requires Modifiers.IsTable(mode.table)
    ensures LastOf(mode, frames).None? ==> frames == []
  {
  }

  lemma IgnoringTold(s: C.State, inputs: seq<Input>)
    ensures TellInputs(s, inputs + [Ignoring(true)]) == TellInputs(s, inputs) && AllWellFormed([Ignoring(true)])
  {
    TellInputsOne(s, inputs, Ignoring(true));
  }

  /** The calls of a run of the proxy leave a client that it served ready without a proxy exactly if the last message
      handled was one of the handshake that sets options and ended too early. */
  lemma ServedThenReadyAlone(s: C.State, events: seq<Event>)
    requires s.alive && s.link.Serving? && !s.ready
    ensures C.ReadyAlone(TellAll(s, Run(RunEffect(events).inputs).calls)) <==> Cut(LastHandled(events))
  {
    hide RunEffect, TellInputs, TellAll, Cut, LastHandled, AllWellFormed;
    RunTold(s, events);
    RunTells(s, RunEffect(events).inputs);
  }

  /** A batch of one such message is a run that does so. */
  lemma CutRun(options: seq<Modifiers.Word>)
    ensures Cut(LastHandled([] + [Data([Frame(DSetOptions(options), Truncated, false, false)], 0)]))
  {
    var frame := Frame(DSetOptions(options), Truncated, false, false);
    var event := Data([frame], 0);
    assert ([] + [event])[..0] == [];
    assert LastOf(FIRST, [frame]) == Some((ParseHandshake, frame)) by {
      Modifiers.IdentityTranslatesNothing(Modifiers.NO_KEY, {});
      assert [frame][1..] == [];
    }
  }
}
