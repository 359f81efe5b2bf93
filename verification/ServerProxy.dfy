/** The proxy that turns messages of the server into calls on the client.
    A run ends when the client is disconnected and the call that disconnects it has returned: what would be done with
    the deleted proxy and its stream after that is not modelled. */
module ServerProxies {
  import opened Options
  import opened Modifiers
  import opened Coalescing

  datatype Parser = ParseHandshake | ParseMessages

  /** How the body of a message can be read: as it should, cut short, or breaking the protocol. */
  datatype Body = Complete | Truncated | Illegal

  datatype TransferState = Started | InProgress | Finished | Error

  datatype Message =
    | DMouseMove(to: Point)
    | DMouseRelMove(delta: Point)
    | DMouseWheel(wheel: Point)
    | DKeyDown(key: KeyID, mask: Mask, button: int)
    | DKeyDownLang(key: KeyID, mask: Mask, button: int, lang: string)
    | DKeyRepeat(key: KeyID, mask: Mask, count: int, button: int, lang: string)
    | DKeyUp(key: KeyID, mask: Mask, button: int)
    | DMouseDown(button: int)
    | DMouseUp(button: int)
    | CEnter(at: Point, seqNum: int, mask: Mask)
    | CLeave
    | CScreenSaver(on: bool)
    | CClipboard(id: nat)
    | DClipboard(id: nat, state: TransferState)
    | DDragInfo
    | DFileTransfer(allFilesWritten: bool)
    | DSetOptions(options: seq<Word>)
    | CResetOptions
    | QInfo
    | CInfoAck
    | CKeepAlive
    | CNoop
    | CClose
    | EIncompatible
    | EBusy
    | EUnknown
    | EBad
    | DLanguageSynchronisation
    | DSecureInputNotification
    | OtherCode

  /** A message as it arrives: whether more input waits behind it, and whether the input validator drops its key. */
  datatype Frame = Frame(message: Message, body: Body, ready: bool, dropped: bool)

  datatype Result = Okay | Unknown | Ended

  const CLIPBOARDS := 2

  // ---------- Order of the calls ----------

  /** Calls that act on the screen of the client. */
  predicate ActsOnScreen(call: Call) {
    AtCursor(call) || call.MouseMove? || call.MouseRelativeMove? || call.ScreenSaver?
    || call.GrabClipboard? || call.SetClipboard? || call.OfferReceivedFiles?
  }

  /** Nothing acts on the screen before the handshake is complete, and it is completed at most once:
      at place `at` if it is. */
  ghost predicate OrderedAround(calls: seq<Call>, at: Option<nat>) {
    && (at.Some? ==> at.value < |calls|)
    && (forall i :: 0 <= i < |calls| ==> (calls[i].HandshakeComplete? <==> at == Some(i as nat)))
    && (forall i :: 0 <= i < |calls| && ActsOnScreen(calls[i]) ==> at.Some? && at.value < i)
  }

  ghost predicate Orderly(parser: Parser, calls: seq<Call>) {
    exists at :: OrderedAround(calls, at) && (at.None? <==> parser.ParseHandshake?)
  }

  lemma OrderlyMore(parser: Parser, calls: seq<Call>, more: seq<Call>)
    requires Orderly(parser, calls)
    requires forall c :: c in more ==> !c.HandshakeComplete? && (ActsOnScreen(c) ==> parser.ParseMessages?)
    ensures Orderly(parser, calls + more)
  {
    var at :| OrderedAround(calls, at) && (at.None? <==> parser.ParseHandshake?);
    assert OrderedAround(calls + more, at);
  }

  lemma OrderlyCompleted(calls: seq<Call>)
    requires Orderly(ParseHandshake, calls)
    ensures Orderly(ParseMessages, calls + [HandshakeComplete])
  {
    assert OrderedAround(calls, None);
    assert OrderedAround(calls + [HandshakeComplete], Some(|calls|));
  }

  /** The proxy is where well-formed inputs have brought it. */
  ghost predicate Follows(inputs: seq<Input>, s: Proxy) {
    (forall i :: 0 <= i < |inputs| ==> WellFormedInput(inputs[i])) && Run(inputs) == s
  }

  lemma FollowsOne(inputs: seq<Input>, s: Proxy, input: Input)
    requires Follows(inputs, s) && WellFormedInput(input)
    ensures Follows(inputs + [input], Next(s, input))
  {
    RunOne(inputs, input);
  }

  // ---------- What a message asks for ----------

  /** What decides how a message is understood. */
  datatype Mode = Mode(parser: Parser, table: seq<ModifierID>, connected: bool)

  /** What becomes of a message: the new mode, what the proxy has to do, and how the message was taken. */
  datatype Effect = Effect(mode: Mode, inputs: seq<Input>, result: Result)

  function Nothing(mode: Mode): Effect {
    Effect(mode, [], Okay)
  }

  function End(mode: Mode, inputs: seq<Input>, call: Call): Effect {
    Effect(mode.(connected := false), inputs + [Plain(call)], Ended)
  }

  /** A message whose body has to be read before anything is done. */
  function Reading(mode: Mode, body: Body, inputs: seq<Input>): Effect {
    if body.Complete? then Effect(mode, inputs, Okay) else End(mode, [], Disconnect(true))
  }

  /** A message that brings the cursor up to date first. */
  function Flushing(mode: Mode, body: Body, inputs: seq<Input>): Effect {
    if body.Complete? then Effect(mode, [AfterFlush([])] + inputs, Okay)
    else End(mode, [AfterFlush([])], Disconnect(true))
  }

  function KeyDownOf(mode: Mode, key: KeyID, mask: Mask, button: int, lang: string): Call
    requires IsTable(mode.table)
  {
    KeyDown(TranslateKey(mode.table, key), TranslateMask(mode.table, SanitizeMask(mask)), button, lang)
  }

  function KeyRepeatOf(mode: Mode, key: KeyID, mask: Mask, count: int, button: int, lang: string): Call
    requires IsTable(mode.table)
  {
    KeyRepeat(TranslateKey(mode.table, key), TranslateMask(mode.table, SanitizeMask(mask)), count, button, lang)
  }

  function KeyUpOf(mode: Mode, key: KeyID, mask: Mask, button: int): Call
    requires IsTable(mode.table)
  {
    KeyUp(TranslateKey(mode.table, key), TranslateMask(mode.table, SanitizeMask(mask)), button)
  }

  function KeyDownEffect(mode: Mode, call: Call, frame: Frame): Effect {
    if frame.body.Complete? then
      Effect(mode, [AfterFlush([])] + if frame.dropped then [] else [AfterFlush([call])], Okay)
    else End(mode, [], Disconnect(true))
  }

  function OptionsEffect(mode: Mode, options: seq<Word>, body: Body): Effect
    requires IsTable(mode.table)
  {
    if !body.Complete? then End(mode, [], Disconnect(true))
    else if |options| % 2 != 0 then Nothing(mode)
    else Effect(mode.(table := AfterOptions(mode.table, options)), [Plain(SetOptions(options))], Okay)
  }

  function GrabEffect(mode: Mode, id: nat, body: Body): Effect {
    Reading(mode, body, if id < CLIPBOARDS then [Plain(GrabClipboard(id))] else [])
  }

  function ClipboardEffect(mode: Mode, id: nat, state: TransferState, body: Body): Effect {
    if state.Error? || body.Illegal? then End(mode, [], Disconnect(true))
    else Effect(mode, if state.Finished? then [Plain(SetClipboard(id))] else [], Okay)
  }

  /** A message whose body may end early, but not break the protocol. */
  function Tolerating(mode: Mode, body: Body, inputs: seq<Input>): Effect {
    if body.Illegal? then End(mode, [], Disconnect(true)) else Effect(mode, inputs, Okay)
  }

  function FilesEffect(mode: Mode, allFilesWritten: bool, body: Body): Effect {
    Tolerating(mode, body, if allFilesWritten then [Plain(OfferReceivedFiles)] else [])
  }

  function HandshakeEffect(mode: Mode, frame: Frame): (e: Effect)
    requires IsTable(mode.table)
    ensures IsTable(e.mode.table)
    ensures e.mode.connected == (mode.connected && !e.result.Ended?)
    ensures e.mode.parser != mode.parser ==>
      frame.message.DSetOptions? && !frame.body.Illegal? && (e.mode.connected ==> frame.body.Complete?)
  {
    match frame.message
    case QInfo => Nothing(mode)
    case CInfoAck => Effect(mode, [Ignoring(false)], Okay)
    case DSetOptions(options) =>
      var e := OptionsEffect(mode, options, frame.body);
      if frame.body.Illegal? then e
      else Effect(e.mode.(parser := ParseMessages), e.inputs + [Plain(HandshakeComplete)], e.result)
    case CResetOptions => Effect(mode.(table := IDENTITY), [Plain(ResetOptions)], Okay)
    case CKeepAlive => Nothing(mode)
    case CNoop => Nothing(mode)
    case CClose => End(mode, [], Disconnect(false))
    case EIncompatible =>
      End(mode, [], if frame.body.Complete? then RefuseConnection(IncompatibleVersion) else Disconnect(true))
    case EBusy => End(mode, [], RefuseConnection(AlreadyConnected))
    case EUnknown => End(mode, [], RefuseConnection(UnknownClient))
    case EBad => End(mode, [], RefuseConnection(ProtocolError))
    case DLanguageSynchronisation => Reading(mode, frame.body, [])
    case _ => Effect(mode, [], Unknown)
  }

  function MessageEffect(mode: Mode, frame: Frame): (e: Effect)
    requires IsTable(mode.table)
    ensures IsTable(e.mode.table) && e.mode.parser == mode.parser
    ensures e.mode.connected == (mode.connected && !e.result.Ended?)
  {
    match frame.message
    case DMouseMove(to) => Reading(mode, frame.body, [Absolute(to, frame.ready)])
    case DMouseRelMove(delta) => Reading(mode, frame.body, [Relative(delta, frame.ready)])
    case DMouseWheel(wheel) => Flushing(mode, frame.body, [AfterFlush([MouseWheel(wheel)])])
    case DKeyDown(key, mask, button) => KeyDownEffect(mode, KeyDownOf(mode, key, mask, button, ""), frame)
    case DKeyDownLang(key, mask, button, lang) => KeyDownEffect(mode, KeyDownOf(mode, key, mask, button, lang), frame)
    case DKeyRepeat(key, mask, count, button, lang) =>
      Flushing(mode, frame.body,
               if frame.dropped then [] else [AfterFlush([KeyRepeatOf(mode, key, mask, count, button, lang)])])
    case DKeyUp(key, mask, button) => Flushing(mode, frame.body, [AfterFlush([KeyUpOf(mode, key, mask, button)])])
    case DMouseDown(button) => Flushing(mode, frame.body, [AfterFlush([MouseDown(button)])])
    case DMouseUp(button) => Flushing(mode, frame.body, [AfterFlush([MouseUp(button)])])
    case CEnter(at, seqNum, mask) => Reading(mode, frame.body, [Entering(Enter(at, seqNum, mask))])
    case CLeave => Flushing(mode, Complete, [AfterFlush([Leave])])
    case _ => OtherEffect(mode, frame)
  }

  /** Messages that are neither motion nor wait for it. */
  function OtherEffect(mode: Mode, frame: Frame): (e: Effect)
    requires IsTable(mode.table)
    ensures IsTable(e.mode.table) && e.mode.parser == mode.parser
    ensures e.mode.connected == (mode.connected && !e.result.Ended?)
  {
    match frame.message
    case CScreenSaver(on) => Reading(mode, frame.body, [Plain(ScreenSaver(on))])
    case CClipboard(id) => GrabEffect(mode, id, frame.body)
    case DClipboard(id, state) => ClipboardEffect(mode, id, state, frame.body)
    case DDragInfo => Tolerating(mode, frame.body, [])
    case DFileTransfer(allFilesWritten) => FilesEffect(mode, allFilesWritten, frame.body)
    case _ => ControlEffect(mode, frame)
  }

  /** Messages that concern neither the screen nor its clipboards. */
  function ControlEffect(mode: Mode, frame: Frame): (e: Effect)
    requires IsTable(mode.table)
    ensures IsTable(e.mode.table) && e.mode.parser == mode.parser
    ensures e.mode.connected == (mode.connected && !e.result.Ended?)
  {
    match frame.message
    case DSetOptions(options) => OptionsEffect(mode, options, frame.body)
    case CResetOptions => Effect(mode.(table := IDENTITY), [Plain(ResetOptions)], Okay)
    case QInfo => Nothing(mode)
    case CInfoAck => Effect(mode, [Ignoring(false)], Okay)
    case CKeepAlive => Nothing(mode)
    case CNoop => Nothing(mode)
    case DSecureInputNotification => Reading(mode, frame.body, [])
    case CClose => End(mode, [], Disconnect(false))
    case EBad => End(mode, [], Disconnect(true))
    case _ => Effect(mode, [], Unknown)
  }

  function FrameEffect(mode: Mode, frame: Frame): (e: Effect)
    requires IsTable(mode.table)
    ensures IsTable(e.mode.table)
    ensures e.mode.connected == (mode.connected && !e.result.Ended?)
    ensures e.mode.parser != mode.parser ==>
      mode.parser.ParseHandshake? && frame.message.DSetOptions? && !frame.body.Illegal?
      && (e.mode.connected ==> frame.body.Complete?)
  {
    if mode.parser.ParseHandshake? then HandshakeEffect(mode, frame) else MessageEffect(mode, frame)
  }

  /** A batch of messages, and the bytes of a message code cut short behind it: a message that is not understood
      takes the rest of the batch with it, and at the end of the batch the cursor is brought up to date. */
  function BatchEffect(mode: Mode, frames: seq<Frame>, rest: nat): (e: Effect)
    requires IsTable(mode.table)
    ensures IsTable(e.mode.table)
    decreases |frames|
  {
    if frames == [] then
      if rest != 0 then End(mode, [], Disconnect(true)) else Effect(mode, [AfterFlush([])], Okay)
    else
      var e := FrameEffect(mode, frames[0]);
      match e.result
      case Ended => e
      case Unknown => Effect(e.mode, e.inputs + [AfterFlush([])], Okay)
      case Okay =>
        var f := BatchEffect(e.mode, frames[1..], rest);
        Effect(f.mode, e.inputs + f.inputs, f.result)
  }

  class ServerProxy {
    var parser: Parser
    var connected: bool
    var compressMouse: bool
    var compressMouseRelative: bool
    var xMouse: int
    var yMouse: int
    var dxMouse: int
    var dyMouse: int
    var ignoreMouse: bool
    const modifierTranslationTable: array<ModifierID>

    // the calls made on the client so far
    var calls: seq<Call>

    // what the proxy has been asked to do so far
    ghost var inputs: seq<Input>

    ghost predicate Valid()
      reads this, modifierTranslationTable
    {
      && modifierTranslationTable.Length == ID_LAST && IsTable(modifierTranslationTable[..])
      && MotionValid()
      && Orderly(parser, calls)
    }

    function TheMode(): Mode
      reads `parser, `connected, modifierTranslationTable
    {
      Mode(parser, modifierTranslationTable[..], connected)
    }

    /** The proxy has done what a message asks for. */
    ghost predicate Performed(e: Effect, before: seq<Input>, result: Result)
      reads `parser, `connected, `inputs, modifierTranslationTable
    {
      TheMode() == e.mode && inputs == before + e.inputs && result == e.result
    }

    function Outcome(): Result
      reads `connected
    {
      if connected then Okay else Ended
    }

    function Held(): Pending
      reads `compressMouse, `compressMouseRelative, `xMouse, `yMouse, `dxMouse, `dyMouse
    {
      Pending(if compressMouse then Some(Point(xMouse, yMouse)) else None,
              if compressMouseRelative then Some(Point(dxMouse, dyMouse)) else None)
    }

    /** No distance is left over when none is held back, and the calls are those of the coalescing rules. */
    ghost predicate MotionValid()
      reads this
    {
      && (!compressMouseRelative ==> dxMouse == 0 && dyMouse == 0)
      && (parser.ParseHandshake? ==> Held() == NOTHING)
      && Follows(inputs, Proxy(Held(), ignoreMouse, calls))
    }

    constructor ()
      ensures Valid() && connected && parser.ParseHandshake? && calls == [] && inputs == []
      ensures fresh(modifierTranslationTable) && modifierTranslationTable[..] == IDENTITY
    {
      parser, connected := ParseHandshake, true;
      compressMouse, compressMouseRelative, ignoreMouse := false, false, false;
      xMouse, yMouse, dxMouse, dyMouse := 0, 0, 0, 0;
      calls, inputs := [], [];
      modifierTranslationTable := new ModifierID[ID_LAST](i => i);
      new;
      assert modifierTranslationTable[..] == IDENTITY;
      assert OrderedAround([], None);
    }

    // ---------- Calls on the client ----------

    /** A call that has nothing to do with the cursor. */
    method Forward(call: Call)
      requires Valid() && WellFormedInput(Plain(call))
      requires !call.HandshakeComplete? && (ActsOnScreen(call) ==> parser.ParseMessages?)
      modifies `calls, `inputs
      ensures Valid() && inputs == old(inputs) + [Plain(call)] && calls == old(calls) + [call]
    {
      hide Follows, Orderly, IsTable;
      OrderlyMore(parser, calls, [call]);
      FollowsOne(inputs, Proxy(Held(), ignoreMouse, calls), Plain(call));
      calls := calls + [call];
      inputs := inputs + [Plain(call)];
    }

    /** A call at the cursor, once no motion is held back any more. */
    method ForwardAtCursor(call: Call)
      requires Valid() && parser.ParseMessages? && AtCursor(call) && !call.Enter? && Held() == NOTHING
      modifies `calls, `inputs
      ensures Valid() && inputs == old(inputs) + [AfterFlush([call])] && calls == old(calls) + [call]
    {
      hide Follows, Orderly, IsTable;
      OrderlyMore(parser, calls, [call]);
      FollowsOne(inputs, Proxy(Held(), ignoreMouse, calls), AfterFlush([call]));
      assert calls + Flushed(NOTHING) == calls;
      calls := calls + [call];
      inputs := inputs + [AfterFlush([call])];
    }

    /** Sends the motion held back: the place first, then the distance. */
    method FlushCompressedMouse()
      requires Valid()
      modifies this
      ensures Valid() && Held() == NOTHING
      ensures inputs == old(inputs) + [AfterFlush([])] && calls == old(calls) + Flushed(old(Held()))
      ensures parser == old(parser) && connected == old(connected) && ignoreMouse == old(ignoreMouse)
    {
      hide Follows, Orderly, IsTable;
      OrderlyMore(parser, calls, Flushed(Held()));
      FollowsOne(inputs, Proxy(Held(), ignoreMouse, calls), AfterFlush([]));
      ghost var before, held := calls, Held();
      if compressMouse {
        compressMouse := false;
        calls := calls + [MouseMove(Point(xMouse, yMouse))];
      }
      if compressMouseRelative {
        compressMouseRelative := false;
        calls := calls + [MouseRelativeMove(Point(dxMouse, dyMouse))];
        dxMouse := 0;
        dyMouse := 0;
      }
      assert calls == before + Flushed(held) && before + Flushed(held) + [] == before + Flushed(held);
      inputs := inputs + [AfterFlush([])];
    }

    /** Reads the body of a message, or disconnects. */
    method ReadOrDisconnect(body: Body) returns (ok: bool)
      requires Valid() && connected
      modifies `calls, `inputs, `connected
      ensures Performed(Reading(old(TheMode()), body, []), old(inputs), Outcome())
      ensures Valid() && ok == body.Complete? == connected
      ensures inputs == old(inputs) + if ok then [] else [Plain(Disconnect(true))]
      ensures calls == old(calls) + if ok then [] else [Disconnect(true)]
    {
      hide Follows, Orderly, IsTable;
      ok := body.Complete?;
      if !ok {
        Forward(Disconnect(true));
        connected := false;
      }
    }

    // ---------- Message handlers ----------

    /** A place to go to: held back if more input waits, and from then on until the next flush. */
    method MoveTo(to: Point, ready: bool)
      requires Valid() && parser.ParseMessages?
      modifies `calls, `inputs, `compressMouse, `compressMouseRelative, `xMouse, `yMouse, `dxMouse, `dyMouse
      ensures Valid() && inputs == old(inputs) + [Absolute(to, ready)]
    {
      hide Follows, Orderly, IsTable;
      FollowsOne(inputs, Proxy(Held(), ignoreMouse, calls), Absolute(to, ready));
      OrderlyMore(parser, calls, [MouseMove(to)]);
      var ignore := ignoreMouse;
      if !ignore && !compressMouse && ready {
        compressMouse := true;
      }
      if compressMouse {
        compressMouseRelative := false;
        ignore := true;
        xMouse, yMouse := to.x, to.y;
        dxMouse, dyMouse := 0, 0;
      }
      if !ignore {
        calls := calls + [MouseMove(to)];
      }
      inputs := inputs + [Absolute(to, ready)];
    }

    /** A distance to go: added to the one held back, or held back if more input waits. */
    method MoveBy(delta: Point, ready: bool)
      requires Valid() && parser.ParseMessages?
      modifies `calls, `inputs, `compressMouseRelative, `dxMouse, `dyMouse
      ensures Valid() && inputs == old(inputs) + [Relative(delta, ready)]
    {
      hide Follows, Orderly, IsTable;
      FollowsOne(inputs, Proxy(Held(), ignoreMouse, calls), Relative(delta, ready));
      OrderlyMore(parser, calls, [MouseRelativeMove(delta)]);
      var ignore := ignoreMouse;
      if !ignore && !compressMouseRelative && ready {
        compressMouseRelative := true;
      }
      if compressMouseRelative {
        ignore := true;
        dxMouse := dxMouse + delta.x;
        dyMouse := dyMouse + delta.y;
      }
      if !ignore {
        calls := calls + [MouseRelativeMove(delta)];
      }
      inputs := inputs + [Relative(delta, ready)];
    }

    method HandleMouseMove(to: Point, body: Body, ready: bool)
      requires Valid() && connected && parser.ParseMessages?
      modifies `calls, `inputs, `connected, `compressMouse, `compressMouseRelative, `xMouse, `yMouse, `dxMouse, `dyMouse
      ensures Valid() && Performed(Reading(old(TheMode()), body, [Absolute(to, ready)]), old(inputs), Outcome())
    {
      hide Follows, Orderly, IsTable;
      var ok := ReadOrDisconnect(body);
      if !ok {
        return;
      }
      MoveTo(to, ready);
    }

    method HandleMouseRelativeMove(delta: Point, body: Body, ready: bool)
      requires Valid() && connected && parser.ParseMessages?
      modifies `calls, `inputs, `connected, `compressMouseRelative, `dxMouse, `dyMouse
      ensures Valid() && Performed(Reading(old(TheMode()), body, [Relative(delta, ready)]), old(inputs), Outcome())
    {
      hide Follows, Orderly, IsTable;
      var ok := ReadOrDisconnect(body);
      if !ok {
        return;
      }
      MoveBy(delta, ready);
    }

    /** Entering the screen throws away motion held back. */
    method HandleEnter(at: Point, seqNum: int, mask: Mask, body: Body)
      requires Valid() && connected && parser.ParseMessages?
      modifies `calls, `inputs, `connected, `compressMouse, `compressMouseRelative, `dxMouse, `dyMouse
      ensures Valid()
      ensures Performed(Reading(old(TheMode()), body, [Entering(Enter(at, seqNum, mask))]), old(inputs), Outcome())
    {
      hide Follows, Orderly, IsTable;
      var ok := ReadOrDisconnect(body);
      if !ok {
        return;
      }
      var call := Enter(at, seqNum, mask);
      FollowsOne(inputs, Proxy(Held(), ignoreMouse, calls), Entering(call));
      OrderlyMore(parser, calls, [call]);
      compressMouse := false;
      compressMouseRelative := false;
      dxMouse, dyMouse := 0, 0;
      calls := calls + [call];
      inputs := inputs + [Entering(call)];
    }

    /** Messages whose body is read once the cursor is up to date: buttons, the wheel, releasing a key. */
    method HandleAtCursor(call: Call, body: Body)
      requires Valid() && connected && parser.ParseMessages? && AtCursor(call) && !call.Enter?
      modifies this
      ensures Valid() && Performed(Flushing(old(TheMode()), body, [AfterFlush([call])]), old(inputs), Outcome())
    {
      hide Follows, Orderly, IsTable, AtCursor, Flushed;
      FlushCompressedMouse();
      var ok := ReadOrDisconnect(body);
      if ok {
        ForwardAtCursor(call);
      }
    }

    /** A key that goes down: translated, unless the validator drops it. */
    method HandleKeyDown(key: KeyID, mask: Mask, button: int, lang: string, frame: Frame)
      requires Valid() && connected && parser.ParseMessages?
      modifies this
      ensures Valid()
      ensures
        var call := KeyDownOf(old(TheMode()), key, mask, button, lang);
        Performed(KeyDownEffect(old(TheMode()), call, frame), old(inputs), Outcome())
    {
      hide Follows, Orderly, TranslateKey, TranslateMask, Flushed, IsTable;
      var ok := ReadOrDisconnect(frame.body);
      if !ok {
        return;
      }
      FlushCompressedMouse();
      var cleanMask := SanitizeMask(mask);
      if frame.dropped {
        return;
      }
      var id2 := TranslateKey(modifierTranslationTable[..], key);
      var mask2 := TranslateMask(modifierTranslationTable[..], cleanMask);
      ForwardAtCursor(KeyDown(id2, mask2, button, lang));
    }

    /** A key that repeats: like one that goes down, but the body is read after the flush. */
    method HandleKeyRepeat(key: KeyID, mask: Mask, count: int, button: int, lang: string, body: Body, dropped: bool)
      requires Valid() && connected && parser.ParseMessages?
      modifies this
      ensures Valid()
      ensures
        var call := KeyRepeatOf(old(TheMode()), key, mask, count, button, lang);
        Performed(Flushing(old(TheMode()), body, if dropped then [] else [AfterFlush([call])]), old(inputs), Outcome())
    {
      hide Follows, Orderly, TranslateKey, TranslateMask, Flushed, IsTable;
      FlushCompressedMouse();
      var ok := ReadOrDisconnect(body);
      if !ok || dropped {
        return;
      }
      var cleanMask := SanitizeMask(mask);
      var id2 := TranslateKey(modifierTranslationTable[..], key);
      var mask2 := TranslateMask(modifierTranslationTable[..], cleanMask);
      ForwardAtCursor(KeyRepeat(id2, mask2, count, button, lang));
    }

    /** A key that goes up is never dropped. */
    method HandleKeyUp(key: KeyID, mask: Mask, button: int, body: Body)
      requires Valid() && connected && parser.ParseMessages?
      modifies this
      ensures Valid()
      ensures
        var call := KeyUpOf(old(TheMode()), key, mask, button);
        Performed(Flushing(old(TheMode()), body, [AfterFlush([call])]), old(inputs), Outcome())
    {
      hide Follows, Orderly, TranslateKey, TranslateMask, Flushed, MotionValid;
      var id2 := TranslateKey(modifierTranslationTable[..], key);
      var mask2 := TranslateMask(modifierTranslationTable[..], SanitizeMask(mask));
      HandleAtCursor(KeyUp(id2, mask2, button), body);
    }

    /** Messages that have nothing to do with the cursor. */
    method HandlePlain(call: Call, body: Body)
      requires Valid() && connected && WellFormedInput(Plain(call)) && !call.HandshakeComplete?
      requires ActsOnScreen(call) ==> parser.ParseMessages?
      modifies `calls, `inputs, `connected
      ensures Valid() && Performed(Reading(old(TheMode()), body, [Plain(call)]), old(inputs), Outcome())
    {
      hide Follows, Orderly, IsTable, MotionValid;
      var ok := ReadOrDisconnect(body);
      if ok {
        Forward(call);
      }
    }

    method HandleGrabClipboard(id: nat, body: Body)
      requires Valid() && connected && parser.ParseMessages?
      modifies `calls, `inputs, `connected
      ensures Valid() && Performed(GrabEffect(old(TheMode()), id, body), old(inputs), Outcome())
    {
      hide Follows, Orderly, IsTable, MotionValid;
      var ok := ReadOrDisconnect(body);
      if ok && id < CLIPBOARDS {
        Forward(GrabClipboard(id));
      }
    }

    /** A chunk of a clipboard: the client gets it when it is whole, and is disconnected when it is broken. */
    method HandleSetClipboard(id: nat, state: TransferState, body: Body)
      requires Valid() && connected && parser.ParseMessages?
      modifies `calls, `inputs, `connected
      ensures Valid() && Performed(ClipboardEffect(old(TheMode()), id, state, body), old(inputs), Outcome())
    {
      hide Follows, Orderly, IsTable, MotionValid;
      if body.Illegal? {
        HangUp(Disconnect(true));
      } else if state.Finished? {
        Forward(SetClipboard(id));
      } else if state.Error? {
        HangUp(Disconnect(true));
      }
    }

    method HandleDragInfo(body: Body)
      requires Valid() && connected && parser.ParseMessages?
      modifies `calls, `inputs, `connected
      ensures Valid() && Performed(Tolerating(old(TheMode()), body, []), old(inputs), Outcome())
    {
      hide Follows, Orderly, IsTable, MotionValid;
      if body.Illegal? {
        HangUp(Disconnect(true));
      }
    }

    method HandleFileChunk(allFilesWritten: bool, body: Body)
      requires Valid() && connected && parser.ParseMessages?
      modifies `calls, `inputs, `connected
      ensures Valid() && Performed(FilesEffect(old(TheMode()), allFilesWritten, body), old(inputs), Outcome())
    {
      hide Follows, Orderly, IsTable, MotionValid;
      if body.Illegal? {
        HangUp(Disconnect(true));
      } else if allFilesWritten {
        Forward(OfferReceivedFiles);
      }
    }

    /** Says the last word to the client: it is disconnected, or refused. */
    method HangUp(call: Call)
      requires Valid() && connected && (call.Disconnect? || call.RefuseConnection?)
      modifies `calls, `inputs, `connected
      ensures Valid() && Performed(End(old(TheMode()), [], call), old(inputs), Outcome())
    {
      Forward(call);
      connected := false;
    }

    /** The modifier table is reset to one that translates nothing. */
    method HandleResetOptions()
      requires Valid() && connected
      modifies `calls, `inputs, modifierTranslationTable
      ensures Valid() && inputs == old(inputs) + [Plain(ResetOptions)] && modifierTranslationTable[..] == IDENTITY
    {
      hide Follows, Orderly, MotionValid;
      Forward(ResetOptions);
      var id := 0;
      while id < ID_LAST
        invariant 0 <= id <= ID_LAST && forall i :: 0 <= i < id ==> modifierTranslationTable[i] == i
        modifies modifierTranslationTable
      {
        modifierTranslationTable[id] := id;
        id := id + 1;
      }
      assert modifierTranslationTable[..] == IDENTITY;
    }

    /** Options come in pairs; each pair that names a modifier sets its place in the table. */
    method HandleSetOptions(options: seq<Word>, body: Body)
      requires Valid() && connected
      modifies `calls, `inputs, `connected, modifierTranslationTable
      ensures Valid()
      ensures Performed(OptionsEffect(old(TheMode()), options, body), old(inputs), Outcome())
    {
      hide Follows, Orderly, MotionValid;
      var ok := ReadOrDisconnect(body);
      if !ok {
        return;
      }
      if |options| % 2 != 0 {
        return;
      }
      Forward(SetOptions(options));
      UpdateTable(options);
    }

    method UpdateTable(options: seq<Word>)
      requires modifierTranslationTable.Length == ID_LAST && IsTable(modifierTranslationTable[..]) && |options| % 2 == 0
      modifies modifierTranslationTable
      ensures modifierTranslationTable[..] == AfterOptions(old(modifierTranslationTable[..]), options)
    {
      var i := 0;
      while i < |options|
        invariant 0 <= i <= |options| && i % 2 == 0 && |options| % 2 == 0
        invariant modifierTranslationTable[..] == AfterOptions(old(modifierTranslationTable[..]), options[..i])
        modifies modifierTranslationTable
      {
        var id := ID_NULL;
        if options[i] == MAP_SHIFT {
          id := ID_SHIFT;
        } else if options[i] == MAP_CONTROL {
          id := ID_CONTROL;
        } else if options[i] == MAP_ALT {
          id := ID_ALT;
        } else if options[i] == MAP_ALT_GR {
          id := ID_ALT_GR;
        } else if options[i] == MAP_META {
          id := ID_META;
        } else if options[i] == MAP_SUPER {
          id := ID_SUPER;
        }
        assert options[..i + 2][..i] == options[..i];
        if id != ID_NULL {
          modifierTranslationTable[id] := Clamped(options[i + 1]);
        }
        i := i + 2;
      }
      assert options[..i] == options;
    }

    /** The screen has changed its shape: motion is ignored until the server acknowledges. */
    method OnInfoChanged()
      requires Valid() && connected
      modifies `ignoreMouse, `inputs
      ensures Valid() && inputs == old(inputs) + [Ignoring(true)]
    {
      hide Follows, Orderly, IsTable;
      FollowsOne(inputs, Proxy(Held(), ignoreMouse, calls), Ignoring(true));
      ignoreMouse := true;
      inputs := inputs + [Ignoring(true)];
    }

    method InfoAcknowledgment()
      requires Valid() && connected
      modifies `ignoreMouse, `inputs
      ensures Valid() && inputs == old(inputs) + [Ignoring(false)]
    {
      hide Follows, Orderly, IsTable;
      FollowsOne(inputs, Proxy(Held(), ignoreMouse, calls), Ignoring(false));
      ignoreMouse := false;
      inputs := inputs + [Ignoring(false)];
    }

    /** The handshake is over: from now on messages are parsed as such, and the client is told, even when it has just
        been disconnected because the options were cut short. */
    method CompleteHandshake()
      requires Valid() && parser.ParseHandshake?
      modifies `parser, `calls, `inputs
      ensures Valid() && parser.ParseMessages? && inputs == old(inputs) + [Plain(HandshakeComplete)]
    {
      hide Follows, Orderly, IsTable;
      FollowsOne(inputs, Proxy(Held(), ignoreMouse, calls), Plain(HandshakeComplete));
      OrderlyCompleted(calls);
      parser := ParseMessages;
      calls := calls + [HandshakeComplete];
      inputs := inputs + [Plain(HandshakeComplete)];
    }

    // ---------- Parsing ----------

    method ParseHandshakeMessage(frame: Frame) returns (result: Result)
      requires Valid() && connected && parser.ParseHandshake?
      modifies this, modifierTranslationTable
      ensures Valid()
      ensures Performed(HandshakeEffect(old(TheMode()), frame), old(inputs), result)
    {
      hide MotionValid, Orderly, AfterOptions, IsTable;
      result := Okay;
      match frame.message {
        case QInfo =>
        case CInfoAck =>
          InfoAcknowledgment();
        case DSetOptions(options) =>
          HandleSetOptions(options, frame.body);
          if frame.body.Illegal? {
            return Ended;
          }
          CompleteHandshake();
          if !connected {
            return Ended;
          }
        case CResetOptions =>
          HandleResetOptions();
        case CKeepAlive =>
        case CNoop =>
        case CClose =>
          HangUp(Disconnect(false));
          return Ended;
        case EIncompatible =>
          var ok := ReadOrDisconnect(frame.body);
          if ok {
            HangUp(RefuseConnection(IncompatibleVersion));
          }
          return Ended;
        case EBusy =>
          HangUp(RefuseConnection(AlreadyConnected));
          return Ended;
        case EUnknown =>
          HangUp(RefuseConnection(UnknownClient));
          return Ended;
        case EBad =>
          HangUp(RefuseConnection(ProtocolError));
          return Ended;
        case DLanguageSynchronisation =>
          var ok := ReadOrDisconnect(frame.body);
          if !ok {
            return Ended;
          }
        case _ =>
          return Unknown;
      }
    }

    method ParseMessage(frame: Frame) returns (result: Result)
      requires Valid() && connected && parser.ParseMessages?
      modifies this, modifierTranslationTable
      ensures Valid()
      ensures Performed(MessageEffect(old(TheMode()), frame), old(inputs), result)
    {
      hide MotionValid, Orderly, IsTable, OtherEffect, Reading, Flushing, KeyDownOf, KeyRepeatOf, KeyUpOf, KeyDownEffect;
      match frame.message {
        case DMouseMove(to) =>
          HandleMouseMove(to, frame.body, frame.ready);
        case DMouseRelMove(delta) =>
          HandleMouseRelativeMove(delta, frame.body, frame.ready);
        case DMouseWheel(wheel) =>
          HandleAtCursor(MouseWheel(wheel), frame.body);
        case DKeyDown(key, mask, button) =>
          HandleKeyDown(key, mask, button, "", frame);
        case DKeyDownLang(key, mask, button, lang) =>
          HandleKeyDown(key, mask, button, lang, frame);
        case DKeyRepeat(key, mask, count, button, lang) =>
          HandleKeyRepeat(key, mask, count, button, lang, frame.body, frame.dropped);
        case DKeyUp(key, mask, button) =>
          HandleKeyUp(key, mask, button, frame.body);
        case DMouseDown(button) =>
          HandleAtCursor(MouseDown(button), frame.body);
        case DMouseUp(button) =>
          HandleAtCursor(MouseUp(button), frame.body);
        case CEnter(at, seqNum, mask) =>
          HandleEnter(at, seqNum, mask, frame.body);
        case CLeave =>
          HandleAtCursor(Leave, Complete);
        case _ =>
          result := ParseOtherMessage(frame);
          return;
      }
      result := if connected then Okay else Ended;
    }

    method ParseOtherMessage(frame: Frame) returns (result: Result)
      requires Valid() && connected && parser.ParseMessages?
      modifies this, modifierTranslationTable
      ensures Valid()
      ensures Performed(OtherEffect(old(TheMode()), frame), old(inputs), result)
    {
      hide MotionValid, Orderly, IsTable, Reading, Tolerating, GrabEffect, ClipboardEffect, FilesEffect, ControlEffect;
      match frame.message {
        case CScreenSaver(on) =>
          HandlePlain(ScreenSaver(on), frame.body);
        case CClipboard(id) =>
          HandleGrabClipboard(id, frame.body);
        case DClipboard(id, state) =>
          HandleSetClipboard(id, state, frame.body);
        case DDragInfo =>
          HandleDragInfo(frame.body);
        case DFileTransfer(allFilesWritten) =>
          HandleFileChunk(allFilesWritten, frame.body);
        case _ =>
          result := ParseControlMessage(frame);
          return;
      }
      result := if connected then Okay else Ended;
    }

    method ParseControlMessage(frame: Frame) returns (result: Result)
      requires Valid() && connected && parser.ParseMessages?
      modifies this, modifierTranslationTable
      ensures Valid()
      ensures Performed(ControlEffect(old(TheMode()), frame), old(inputs), result)
    {
      hide MotionValid, Orderly, IsTable, Reading, OptionsEffect;
      match frame.message {
        case DSetOptions(options) =>
          HandleSetOptions(options, frame.body);
        case CResetOptions =>
          HandleResetOptions();
        case QInfo =>
        case CInfoAck =>
          InfoAcknowledgment();
        case CKeepAlive =>
        case CNoop =>
        case DSecureInputNotification =>
          var ok := ReadOrDisconnect(frame.body);
        case CClose =>
          HangUp(Disconnect(false));
        case EBad =>
          HangUp(Disconnect(true));
        case _ =>
          return Unknown;
      }
      result := if connected then Okay else Ended;
    }

    lemma IsOrderly()
      requires Valid()
      ensures exists at :: OrderedAround(calls, at)
      ensures Run(inputs).calls == calls
    {
    }

    method Handle(event: Event)
      requires Valid() && connected
      modifies this, modifierTranslationTable
      ensures Valid()
      ensures
        var e := EventEffect(old(TheMode()), event);
        TheMode() == e.mode && inputs == old(inputs) + e.inputs
    {
      hide MotionValid, Orderly, BatchEffect, IsTable;
      match event {
        case Data(frames, rest) => HandleData(frames, rest);
        case InfoChanged => OnInfoChanged();
      }
    }

    /** Handles messages until there are no more, then brings the cursor up to date. */
    method HandleData(frames: seq<Frame>, rest: nat)
      requires Valid() && connected && rest < 4
      modifies this, modifierTranslationTable
      ensures Valid() && (connected ==> Held() == NOTHING)
      ensures
        var e := BatchEffect(old(TheMode()), frames, rest);
        TheMode() == e.mode && inputs == old(inputs) + e.inputs
    {
      hide MotionValid, Orderly, HandshakeEffect, MessageEffect, IsTable;
      ghost var all := BatchEffect(TheMode(), frames, rest);
      var i := 0;
      var n := if i < |frames| then 4 else rest;
      while n != 0
        invariant Valid() && connected && 0 <= i <= |frames| && n == (if i < |frames| then 4 else rest)
        invariant BatchEffect(TheMode(), frames[i..], rest).mode == all.mode
        invariant inputs + BatchEffect(TheMode(), frames[i..], rest).inputs == old(inputs) + all.inputs
        decreases |frames| - i, n
      {
        if n != 4 {
          HangUp(Disconnect(true));
          return;
        }
        var result;
        if parser.ParseHandshake? {
          result := ParseHandshakeMessage(frames[i]);
        } else {
          result := ParseMessage(frames[i]);
        }
        match result {
          case Okay =>
            i := i + 1;
          case Unknown =>
            FlushCompressedMouse();
            return;
          case Ended =>
            return;
        }
        n := if i < |frames| then 4 else rest;
      }
      FlushCompressedMouse();
    }
  }

  // ---------- Whole runs ----------

  /** What happens to a proxy: a batch of data arrives, with some bytes of a code cut short, or the screen changes. */
  datatype Event = Data(frames: seq<Frame>, rest: Rest) | InfoChanged

  type Rest = r: nat | r < 4

  const FIRST := Mode(ParseHandshake, IDENTITY, true)

  function EventEffect(mode: Mode, event: Event): (e: Effect)
    requires IsTable(mode.table)
    ensures IsTable(e.mode.table)
  {
    match event
    case Data(frames, rest) => BatchEffect(mode, frames, rest)
    case InfoChanged => Effect(mode, [Ignoring(true)], Okay)
  }

  /** All that a run asks the proxy to do, until the client is disconnected. */
  function RunEffect(events: seq<Event>): (e: Effect)
    ensures IsTable(e.mode.table)
  {
    if events == [] then
      IdentityTranslatesNothing(NO_KEY, {});
      Nothing(FIRST)
    else
      var e := RunEffect(events[..|events| - 1]);
      if !e.mode.connected then e
      else
        var f := EventEffect(e.mode, events[|events| - 1]);
        Effect(f.mode, e.inputs + f.inputs, f.result)
  }

  /** Runs a proxy: nothing acts on the screen before the handshake is complete, the handshake is completed at most
      once, and the calls are those of the coalescing rules; so if all moves keep order, they show what sending every
      move at once would show. */
  method Serve(events: seq<Event>) returns (calls: seq<Call>, table: seq<ModifierID>)
    ensures calls == Run(RunEffect(events).inputs).calls && table == RunEffect(events).mode.table
    ensures exists at :: OrderedAround(calls, at)
    ensures AllKeepOrder(RunEffect(events).inputs) ==>
      forall start :: Agree(start, Run(RunEffect(events).inputs), RunDirect(RunEffect(events).inputs))
  {
    hide EventEffect, Orderly, Run, IsTable;
    var p := new ServerProxy();
    for i := 0 to |events|
      invariant fresh(p) && fresh(p.modifierTranslationTable) && p.Valid()
      invariant p.TheMode() == RunEffect(events[..i]).mode && p.inputs == RunEffect(events[..i]).inputs
    {
      assert events[..i + 1][..i] == events[..i];
      if p.connected {
        p.Handle(events[i]);
      }
    }
    assert events[..|events|] == events;
    calls, table := p.calls, p.modifierTranslationTable[..];
    p.IsOrderly();
    if AllKeepOrder(RunEffect(events).inputs) {
      forall start ensures Agree(start, Run(RunEffect(events).inputs), RunDirect(RunEffect(events).inputs)) {
        CoalescingIsInvisible(start, RunEffect(events).inputs);
      }
    }
  }

  /** The modes that a sequence of messages goes through, each message understood. */
  function ModeAfter(mode: Mode, frames: seq<Frame>): (m: Mode)
    requires IsTable(mode.table)
    ensures IsTable(m.table)
  {
    if frames == [] then mode else FrameEffect(ModeAfter(mode, frames[..|frames| - 1]), frames[|frames| - 1]).mode
  }

  /** Once messages are parsed as such they always are, and it takes a message that sets options to get there; if the
      client is still connected then, the options could be read. */
  lemma {:induction false} NoWayBack(mode: Mode, frames: seq<Frame>)
    requires IsTable(mode.table)
    ensures mode.parser.ParseMessages? ==> ModeAfter(mode, frames).parser.ParseMessages?
    ensures
      var end := ModeAfter(mode, frames);
      end.parser != mode.parser ==>
        exists i :: 0 <= i < |frames| && frames[i].message.DSetOptions? && !frames[i].body.Illegal?
                    && (end.connected ==> frames[i].body.Complete?)
    ensures !mode.connected ==> !ModeAfter(mode, frames).connected
  {
    if frames != [] {
      NoWayBack(mode, frames[..|frames| - 1]);
    }
  }

  /** The proxy completes the handshake of a client that it has just disconnected exactly when a message that sets
      options ends too early. */
  lemma CompletedAfterDisconnect(mode: Mode, frame: Frame)
    requires IsTable(mode.table) && mode.connected && mode.parser.ParseHandshake?
    ensures
      var e := FrameEffect(mode, frame);
      Plain(HandshakeComplete) in e.inputs && !e.mode.connected <==> frame.message.DSetOptions? && frame.body.Truncated?
    ensures frame.message.DSetOptions? && frame.body.Truncated? ==>
      FrameEffect(mode, frame).inputs == [Plain(Disconnect(true)), Plain(HandshakeComplete)]
  {
    if frame.message.DSetOptions? && frame.body.Truncated? {
      assert FrameEffect(mode, frame).inputs[1] == Plain(HandshakeComplete);
    }
  }
}
