/** What reaches the client of each message, with keys, masks, codes and tables spelled out. */
module Forwarding {
  import opened Modifiers
  import opened Coalescing
  import opened ServerProxies

  // ---------- Keys and masks ----------

  /** The keys of none, Shift, Control, Alt, Meta, Super and AltGr, on the left and on the right. */
  const LEFT: seq<KeyID> := [0x0000, 0xEFE1, 0xEFE3, 0xEFE9, 0xEFE7, 0xEFEB, 0xEF7E]
  const RIGHT: seq<KeyID> := [0x0000, 0xEFE2, 0xEFE4, 0xEFEA, 0xEFE8, 0xEFEC, 0xEF7E]

  /** A modifier key becomes the key on its side of the modifier in its place of the table, AltGr counting as right;
      any other key stays. */
  predicate KeyBecomes(table: seq<ModifierID>, key: KeyID, key': KeyID)
    requires IsTable(table)
  {
    && (forall m :: 1 <= m < 7 && key == RIGHT[m] ==> key' == RIGHT[table[m]])
    && (forall m :: 1 <= m < 6 && key == LEFT[m] ==> key' == LEFT[table[m]])
    && (key !in LEFT[1..] && key !in RIGHT[1..] ==> key' == key)
  }

  /** Some modifier of the mask is mapped to the one of the bit: bits 0 to 5 are Shift, Control, Alt, Meta, Super and
      AltGr, whose numbers are 1 to 6. */
  predicate Carries(table: seq<ModifierID>, mask: Mask, m: nat, bit: nat)
    requires IsTable(table)
  {
    1 <= m < 7 && (m - 1) in mask && table[m] == bit + 1
  }

  /** A modifier bit is there if some modifier of the mask is mapped to it.  Of the other bits, Level5Lock and CapsLock,
      which are 6 and 12, are kept. */
  ghost predicate MaskBecomes(table: seq<ModifierID>, mask: Mask, mask': Mask)
    requires IsTable(table)
  {
    forall bit: nat :: bit in mask' <==>
      if bit < 6 then exists m :: Carries(table, mask, m, bit)
      else bit in mask && (bit == 6 || bit == 12)
  }

  lemma KeysOf(m: ModifierID)
    requires m < 7
    ensures KEYS[m] == (LEFT[m], RIGHT[m])
  {
  }

  lemma RightKeyIs(table: seq<ModifierID>, m: nat)
    requires IsTable(table) && 1 <= m < 7
    ensures TranslateKey(table, RIGHT[m]) == RIGHT[table[m]]
  {
    KeysOf(table[m]);
  }

  lemma LeftKeyIs(table: seq<ModifierID>, m: nat)
    requires IsTable(table) && 1 <= m < 6
    ensures TranslateKey(table, LEFT[m]) == LEFT[table[m]]
  {
    KeysOf(table[m]);
  }

  lemma OtherKeyIs(table: seq<ModifierID>, key: KeyID)
    requires IsTable(table) && key !in LEFT[1..] && key !in RIGHT[1..]
    ensures TranslateKey(table, key) == key
  {
    assert LEFT[1..] == [0xEFE1, 0xEFE3, 0xEFE9, 0xEFE7, 0xEFEB, 0xEF7E];
    assert RIGHT[1..] == [0xEFE2, 0xEFE4, 0xEFEA, 0xEFE8, 0xEFEC, 0xEF7E];
  }

  lemma KeyIs(table: seq<ModifierID>, key: KeyID)
    requires IsTable(table)
    ensures KeyBecomes(table, key, TranslateKey(table, key))
  {
    hide TranslateKey;
    forall m | 1 <= m < 7 && key == RIGHT[m] ensures TranslateKey(table, key) == RIGHT[table[m]] {
      RightKeyIs(table, m);
    }
    forall m | 1 <= m < 6 && key == LEFT[m] ensures TranslateKey(table, key) == LEFT[table[m]] {
      LeftKeyIs(table, m);
    }
    if key !in LEFT[1..] && key !in RIGHT[1..] {
      OtherKeyIs(table, key);
    }
  }

  lemma MaskIs(table: seq<ModifierID>, mask: Mask)
    requires IsTable(table)
    ensures MaskBecomes(table, mask, TranslateMask(table, SanitizeMask(mask)))
  {
    var clean := SanitizeMask(mask);
    var mask' := TranslateMask(table, clean);
    forall bit: nat | bit < 6
      ensures bit in mask' <==> exists m :: Carries(table, mask, m, bit)
    {
      MaskExactly(table, clean, bit + 1);
      CarriesClean(table, mask, bit);
    }
    MaskKeepsOthers(table, clean);
    assert forall bit: nat :: bit >= 6 ==> (bit in mask' <==> bit in mask' - ALL_MODIFIERS);
  }

  lemma CarriesClean(table: seq<ModifierID>, mask: Mask, bit: nat)
    requires IsTable(table) && bit < 6
    ensures (exists m :: Carries(table, mask, m, bit))
      <==> exists m :: 0 < m < ID_LAST && BitOf(m) in SanitizeMask(mask) && table[m] == bit + 1
  {
    if m :| Carries(table, mask, m, bit) {
      assert BitOf(m) in SanitizeMask(mask);
    }
    if m :| 0 < m < ID_LAST && BitOf(m) in SanitizeMask(mask) && table[m] == bit + 1 {
      assert Carries(table, mask, m, bit);
    }
  }

  /** What a key becomes is settled by the table. */
  lemma KeyBecomesOne(table: seq<ModifierID>, key: KeyID, one: KeyID, other: KeyID)
    requires IsTable(table) && KeyBecomes(table, key, one) && KeyBecomes(table, key, other)
    ensures one == other
  {
    if m :| 1 <= m < 7 && key == RIGHT[m] {
      assert one == RIGHT[table[m]] == other;
    } else if m :| 1 <= m < 6 && key == LEFT[m] {
      assert one == LEFT[table[m]] == other;
    } else {
      assert LEFT[6] == RIGHT[6];
      assert forall i :: 0 <= i < 6 ==> LEFT[1..][i] == LEFT[i + 1] != key && RIGHT[1..][i] == RIGHT[i + 1] != key;
    }
  }

  predicate IsKey(message: Message) {
    message.DKeyDown? || message.DKeyDownLang? || message.DKeyRepeat? || message.DKeyUp?
  }

  /** The call that a key message makes, if it is not dropped: translated, and otherwise as it came. */
  ghost predicate KeyCall(table: seq<ModifierID>, message: Message, call: Call)
    requires IsTable(table)
  {
    match message
    case DKeyDown(key, mask, button) =>
      && call.KeyDown? && call.keyButton == button && call.lang == ""
      && KeyBecomes(table, key, call.key) && MaskBecomes(table, mask, call.mask)
    case DKeyDownLang(key, mask, button, lang) =>
      && call.KeyDown? && call.keyButton == button && call.lang == lang
      && KeyBecomes(table, key, call.key) && MaskBecomes(table, mask, call.mask)
    case DKeyRepeat(key, mask, count, button, lang) =>
      && call.KeyRepeat? && call.count == count && call.keyButton == button && call.lang == lang
      && KeyBecomes(table, key, call.key) && MaskBecomes(table, mask, call.mask)
    case DKeyUp(key, mask, button) =>
      && call.KeyUp? && call.keyButton == button
      && KeyBecomes(table, key, call.key) && MaskBecomes(table, mask, call.mask)
    case _ => false
  }

  /** A key message that can be read brings the cursor up to date and forwards the key, translated; what the input
      validator drops is not forwarded, but a release always is. */
  lemma KeyForwarded(mode: Mode, frame: Frame) returns (call: Call)
    requires IsTable(mode.table) && mode.parser.ParseMessages? && IsKey(frame.message) && frame.body.Complete?
    ensures KeyCall(mode.table, frame.message, call)
    ensures FrameEffect(mode, frame) == Effect(mode,
      [AfterFlush([])] + if frame.dropped && !frame.message.DKeyUp? then [] else [AfterFlush([call])], Okay)
  {
    hide KeyBecomes, MaskBecomes, TranslateKey, TranslateMask, SanitizeMask;
    var key, mask := frame.message.key, frame.message.mask;
    KeyIs(mode.table, key);
    MaskIs(mode.table, mask);
    match frame.message
    case DKeyDown(_, _, button) => call := KeyDownOf(mode, key, mask, button, "");
    case DKeyDownLang(_, _, button, lang) => call := KeyDownOf(mode, key, mask, button, lang);
    case DKeyRepeat(_, _, count, button, lang) => call := KeyRepeatOf(mode, key, mask, count, button, lang);
    case DKeyUp(_, _, button) => call := KeyUpOf(mode, key, mask, button);
  }

  /** One that cannot be read disconnects the client; a press does so without bringing the cursor up to date. */
  lemma KeyUnreadable(mode: Mode, frame: Frame)
    requires IsTable(mode.table) && mode.parser.ParseMessages? && IsKey(frame.message) && !frame.body.Complete?
    ensures FrameEffect(mode, frame) == Effect(mode.(connected := false),
      (if frame.message.DKeyDown? || frame.message.DKeyDownLang? then [] else [AfterFlush([])])
        + [Plain(Disconnect(true))], Ended)
  {
  }

  /** Under one table, the press, the repeat and the release of a key name the same key. */
  lemma PressAndRelease(mode: Mode, press: Frame, release: Frame)
    requires IsTable(mode.table) && mode.parser.ParseMessages?
    requires IsKey(press.message) && press.body.Complete? && !press.dropped
    requires release.message.DKeyUp? && release.body.Complete? && release.message.key == press.message.key
    ensures exists down: Call, up: Call ::
      && FrameEffect(mode, press).inputs == [AfterFlush([])] + [AfterFlush([down])]
      && FrameEffect(mode, release).inputs == [AfterFlush([])] + [AfterFlush([up])]
      && (down.KeyDown? || down.KeyRepeat? || down.KeyUp?) && up.KeyUp? && down.key == up.key
  {
    hide FrameEffect, KeyBecomes, MaskBecomes;
    var down := KeyForwarded(mode, press);
    var up := KeyForwarded(mode, release);
    KeyBecomesOne(mode.table, press.message.key, down.key, up.key);
  }

  // ---------- Other messages ----------

  /** The message asks for some inputs, and the connection goes on. */
  predicate Asks(mode: Mode, frame: Frame, inputs: seq<Input>)
    requires IsTable(mode.table)
  {
    FrameEffect(mode, frame) == Effect(mode, inputs, Okay)
  }

  /** The message asks for some inputs and then ends the connection with a last call. */
  predicate Ends(mode: Mode, frame: Frame, inputs: seq<Input>, call: Call)
    requires IsTable(mode.table)
  {
    FrameEffect(mode, frame) == Effect(mode.(connected := false), inputs + [Plain(call)], Ended)
  }

  /** Motion is passed on with whether more input waits; what cannot be read disconnects the client. */
  lemma MotionAsked(mode: Mode, frame: Frame)
    requires IsTable(mode.table) && mode.parser.ParseMessages?
    ensures frame.message.DMouseMove? ==>
      if frame.body.Complete? then Asks(mode, frame, [Absolute(frame.message.to, frame.ready)])
      else Ends(mode, frame, [], Disconnect(true))
    ensures frame.message.DMouseRelMove? ==>
      if frame.body.Complete? then Asks(mode, frame, [Relative(frame.message.delta, frame.ready)])
      else Ends(mode, frame, [], Disconnect(true))
  {
  }

  /** Entering is passed on as it comes, the mask included; leaving brings the cursor up to date first. */
  lemma EnteringAsked(mode: Mode, frame: Frame)
    requires IsTable(mode.table) && mode.parser.ParseMessages?
    ensures frame.message.CEnter? ==>
      if frame.body.Complete? then
        Asks(mode, frame, [Entering(Enter(frame.message.at, frame.message.seqNum, frame.message.mask))])
      else Ends(mode, frame, [], Disconnect(true))
    ensures frame.message.CLeave? ==> Asks(mode, frame, [AfterFlush([])] + [AfterFlush([Leave])])
  {
  }

  /** Buttons and the wheel are passed on with the cursor up to date, which it is even if they cannot be read. */
  lemma ButtonsAsked(mode: Mode, frame: Frame)
    requires IsTable(mode.table) && mode.parser.ParseMessages?
    ensures frame.message.DMouseDown? ==>
      if frame.body.Complete? then Asks(mode, frame, [AfterFlush([])] + [AfterFlush([MouseDown(frame.message.button)])])
      else Ends(mode, frame, [AfterFlush([])], Disconnect(true))
    ensures frame.message.DMouseUp? ==>
      if frame.body.Complete? then Asks(mode, frame, [AfterFlush([])] + [AfterFlush([MouseUp(frame.message.button)])])
      else Ends(mode, frame, [AfterFlush([])], Disconnect(true))
    ensures frame.message.DMouseWheel? ==>
      if frame.body.Complete? then Asks(mode, frame, [AfterFlush([])] + [AfterFlush([MouseWheel(frame.message.wheel)])])
      else Ends(mode, frame, [AfterFlush([])], Disconnect(true))
  {
  }

  /** The screen saver is switched as the message says; of the clipboards, which are 0 and 1, one that exists is grabbed. */
  lemma ScreenAsked(mode: Mode, frame: Frame)
    requires IsTable(mode.table) && mode.parser.ParseMessages?
    ensures frame.message.CScreenSaver? ==>
      if frame.body.Complete? then Asks(mode, frame, [Plain(ScreenSaver(frame.message.on))])
      else Ends(mode, frame, [], Disconnect(true))
    ensures frame.message.CClipboard? ==>
      if !frame.body.Complete? then Ends(mode, frame, [], Disconnect(true))
      else Asks(mode, frame, if frame.message.id < 2 then [Plain(GrabClipboard(frame.message.id))] else [])
    ensures frame.message.DSecureInputNotification? ==>
      if frame.body.Complete? then Asks(mode, frame, []) else Ends(mode, frame, [], Disconnect(true))
  {
  }

  /** A clipboard is set when it is whole, and files are offered when all are written; what breaks the protocol disconnects
      the client, and so does a broken clipboard. */
  lemma TransfersAsked(mode: Mode, frame: Frame)
    requires IsTable(mode.table) && mode.parser.ParseMessages?
    ensures frame.message.DClipboard? ==>
      if frame.body.Illegal? || frame.message.state.Error? then Ends(mode, frame, [], Disconnect(true))
      else Asks(mode, frame, if frame.message.state.Finished? then [Plain(SetClipboard(frame.message.id))] else [])
    ensures frame.message.DFileTransfer? ==>
      if frame.body.Illegal? then Ends(mode, frame, [], Disconnect(true))
      else Asks(mode, frame, if frame.message.allFilesWritten then [Plain(OfferReceivedFiles)] else [])
    ensures frame.message.DDragInfo? ==>
      if frame.body.Illegal? then Ends(mode, frame, [], Disconnect(true)) else Asks(mode, frame, [])
  {
  }

  /** A goodbye comes without a message, an acknowledgment ends the ignoring of motion, options are reset to translate
      nothing, and a protocol error of ours disconnects the client. */
  lemma MessageControls(mode: Mode, frame: Frame)
    requires IsTable(mode.table) && mode.parser.ParseMessages?
    ensures frame.message.CClose? ==> Ends(mode, frame, [], Disconnect(false))
    ensures frame.message.CInfoAck? ==> Asks(mode, frame, [Ignoring(false)])
    ensures frame.message.CResetOptions? ==>
      FrameEffect(mode, frame) == Effect(mode.(table := [0, 1, 2, 3, 4, 5, 6]), [Plain(ResetOptions)], Okay)
    ensures frame.message.QInfo? || frame.message.CKeepAlive? || frame.message.CNoop? ==> Asks(mode, frame, [])
    ensures frame.message.EBad? ==> Ends(mode, frame, [], Disconnect(true))
  {
  }

  /** In the handshake a goodbye, an acknowledgment and a reset mean the same. */
  lemma HandshakeControls(mode: Mode, frame: Frame)
    requires IsTable(mode.table) && mode.parser.ParseHandshake?
    ensures frame.message.CClose? ==> Ends(mode, frame, [], Disconnect(false))
    ensures frame.message.CInfoAck? ==> Asks(mode, frame, [Ignoring(false)])
    ensures frame.message.CResetOptions? ==>
      FrameEffect(mode, frame) == Effect(mode.(table := [0, 1, 2, 3, 4, 5, 6]), [Plain(ResetOptions)], Okay)
    ensures frame.message.QInfo? || frame.message.CKeepAlive? || frame.message.CNoop? ==> Asks(mode, frame, [])
    ensures frame.message.DLanguageSynchronisation? ==>
      if frame.body.Complete? then Asks(mode, frame, []) else Ends(mode, frame, [], Disconnect(true))
  {
  }

  /** Options are passed on as they come, unless they are an odd number of values.  In the handshake they complete it, even
      if they could not be read but did not break the protocol, and after the client was disconnected for it. */
  lemma OptionsAsked(mode: Mode, frame: Frame)
    requires IsTable(mode.table) && frame.message.DSetOptions?
    ensures
      var e := FrameEffect(mode, frame);
      var told := if |frame.message.options| % 2 == 0 then [Plain(SetOptions(frame.message.options))] else [];
      var done := if mode.parser.ParseHandshake? && !frame.body.Illegal? then [Plain(HandshakeComplete)] else [];
      if frame.body.Complete? then e.inputs == told + done && e.result.Okay? && e.mode.connected == mode.connected
      else e.inputs == [Plain(Disconnect(true))] + done && e.result.Ended? && !e.mode.connected
  {
    hide AfterOptions;
  }

  /** Why the server refuses the client: each reason by its own message in the handshake. */
  lemma Refusals(mode: Mode, frame: Frame)
    requires IsTable(mode.table) && mode.parser.ParseHandshake?
    ensures frame.message.EIncompatible? ==> Ends(mode, frame, [],
      if frame.body.Complete? then RefuseConnection(IncompatibleVersion) else Disconnect(true))
    ensures frame.message.EBusy? ==> Ends(mode, frame, [], RefuseConnection(AlreadyConnected))
    ensures frame.message.EUnknown? ==> Ends(mode, frame, [], RefuseConnection(UnknownClient))
    ensures frame.message.EBad? ==> Ends(mode, frame, [], RefuseConnection(ProtocolError))
  {
  }

  /** Messages of the handshake. */
  predicate OfHandshake(message: Message) {
    || message.QInfo? || message.CInfoAck? || message.DSetOptions? || message.CResetOptions? || message.CKeepAlive?
    || message.CNoop? || message.CClose? || message.EIncompatible? || message.EBusy? || message.EUnknown? || message.EBad?
    || message.DLanguageSynchronisation?
  }

  /** Messages that only the handshake knows, and codes that nobody knows. */
  predicate NotAfterwards(message: Message) {
    || message.EIncompatible? || message.EBusy? || message.EUnknown? || message.DLanguageSynchronisation?
    || message.OtherCode?
  }

  /** A message that its phase does not know is not understood, and nothing is done about it. */
  lemma NotUnderstood(mode: Mode, frame: Frame)
    requires IsTable(mode.table)
    requires if mode.parser.ParseHandshake? then !OfHandshake(frame.message) else NotAfterwards(frame.message)
    ensures FrameEffect(mode, frame) == Effect(mode, [], Unknown)
  {
  }

  // ---------- Batches ----------

  /** The messages of a batch that are handled: up to the first that is not understood or ends the run. */
  function Handled(mode: Mode, frames: seq<Frame>): (h: seq<Frame>)
    requires IsTable(mode.table)
    ensures h <= frames
    decreases |frames|
  {
    if frames == [] then []
    else
      var e := FrameEffect(mode, frames[0]);
      [frames[0]] + if e.result.Okay? then Handled(e.mode, frames[1..]) else []
  }

  /** All that a sequence of messages asks for, one after the other. */
  function InputsOf(mode: Mode, frames: seq<Frame>): seq<Input>
    requires IsTable(mode.table)
  {
    if frames == [] then []
    else
      var before := frames[..|frames| - 1];
      InputsOf(mode, before) + FrameEffect(ModeAfter(mode, before), frames[|frames| - 1]).inputs
  }

  lemma {:induction false} InputsOfMore(mode: Mode, a: seq<Frame>, b: seq<Frame>)
    requires IsTable(mode.table)
    ensures ModeAfter(mode, a + b) == ModeAfter(ModeAfter(mode, a), b)
    ensures InputsOf(mode, a + b) == InputsOf(mode, a) + InputsOf(ModeAfter(mode, a), b)
  {
    hide FrameEffect, IsTable;
    if b == [] {
      assert a + b == a;
    } else {
      var n := |b| - 1;
      InputsOfMore(mode, a, b[..n]);
      assert (a + b)[..|a + b| - 1] == a + b[..n];
    }
  }

  lemma InputsOfOne(mode: Mode, frame: Frame)
    requires IsTable(mode.table)
    ensures InputsOf(mode, [frame]) == FrameEffect(mode, frame).inputs
    ensures ModeAfter(mode, [frame]) == FrameEffect(mode, frame).mode
  {
    hide FrameEffect;
    assert [frame][..0] == [];
  }

  /** How a batch ends: with the last message handled, which was not understood or ended the connection; with bytes that
      are no whole code, which end the connection; or else with the cursor brought up to date. */
  function Tail(last: Result, rest: nat): seq<Input> {
    match last
    case Ended => []
    case Unknown => [AfterFlush([])]
    case Okay => if rest != 0 then [Plain(Disconnect(true))] else [AfterFlush([])]
  }

  /** How the last message that is handled was taken. */
  function LastResult(mode: Mode, frames: seq<Frame>): Result
    requires IsTable(mode.table)
    decreases |frames|
  {
    if frames == [] then Okay
    else
      var e := FrameEffect(mode, frames[0]);
      if e.result.Okay? then LastResult(e.mode, frames[1..]) else e.result
  }

  /** A batch asks for what its handled messages ask for, in order, and then for its tail. */
  lemma {:induction false} BatchAsks(mode: Mode, frames: seq<Frame>, rest: nat)
    requires IsTable(mode.table)
    ensures
      var e, h, last := BatchEffect(mode, frames, rest), Handled(mode, frames), LastResult(mode, frames);
      && e.inputs == InputsOf(mode, h) + Tail(last, rest)
      && e.mode == ModeAfter(mode, h).(connected := e.mode.connected)
      && e.mode.connected == (mode.connected && !last.Ended? && !(last.Okay? && rest != 0))
    decreases |frames|
  {
    hide FrameEffect, IsTable;
    if frames != [] {
      var e := FrameEffect(mode, frames[0]);
      InputsOfOne(mode, frames[0]);
      if e.result.Okay? {
        BatchAsks(e.mode, frames[1..], rest);
        InputsOfMore(mode, [frames[0]], Handled(e.mode, frames[1..]));
      }
    }
  }

  // ---------- The table after any messages ----------

  /** The options of the last messages that set some, since they were reset; a message that cannot be read, or holds an
      odd number of values, sets none. */
  function OptionsSince(frames: seq<Frame>): (options: seq<Word>)
    ensures |options| % 2 == 0
  {
    if frames == [] then []
    else
      var before, last := OptionsSince(frames[..|frames| - 1]), frames[|frames| - 1];
      match last.message
      case CResetOptions => []
      case DSetOptions(options) => if last.body.Complete? && |options| % 2 == 0 then before + options else before
      case _ => before
  }

  /** The option names "MMFS", "MMFC", "MMFA", "MMFM", "MMFR" and "MMFG" are those of Shift, Control, Alt, Meta, Super and
      AltGr. */
  predicate Names(option: Word, m: ModifierID) {
    || (m == 1 && option == 0x4d4d4653) || (m == 2 && option == 0x4d4d4643) || (m == 3 && option == 0x4d4d4641)
    || (m == 4 && option == 0x4d4d464d) || (m == 5 && option == 0x4d4d4652) || (m == 6 && option == 0x4d4d4647)
  }

  /** Pair `k` of the options names the modifier. */
  predicate PairNames(options: seq<Word>, k: nat, m: ModifierID) {
    2 * k + 1 < |options| && Names(options[2 * k], m)
  }

  /** A modifier is mapped as the last pair that names it says, values past AltGr standing for AltGr, and to itself if
      there is none. */
  ghost predicate TableOf(options: seq<Word>, table: seq<ModifierID>) {
    |table| == 7 && table[0] == 0 && forall m :: 1 <= m < 7 ==> MappedBy(options, m, table[m])
  }

  ghost predicate MappedBy(options: seq<Word>, m: ModifierID, to: ModifierID) {
    || (to == m && forall k :: !PairNames(options, k, m))
    || exists k :: PairNames(options, k, m) && to == (if options[2 * k + 1] > 6 then 6 else options[2 * k + 1])
         && forall later :: k < later ==> !PairNames(options, later, m)
  }

  lemma SetsNames(options: seq<Word>, k: nat, m: ModifierID)
    ensures Sets(options, k, m) <==> PairNames(options, k, m)
  {
  }

  lemma OptionsMakeTable(options: seq<Word>)
    requires |options| % 2 == 0
    ensures TableOf(options, AfterOptions(IDENTITY, options))
  {
    var table := AfterOptions(IDENTITY, options);
    LastPairCounts(IDENTITY, options);
    hide AfterOptions;
    forall m | 1 <= m < 7 ensures MappedBy(options, m, table[m]) {
      forall k: nat ensures Sets(options, k, m) <==> PairNames(options, k, m) {
        SetsNames(options, k, m);
      }
      if k :| Sets(options, k, m) && table[m] == Clamped(options[2 * k + 1])
              && forall later :: k < later ==> !Sets(options, later, m) {
        assert PairNames(options, k, m);
      }
    }
  }

  /** What a message does to the table. */
  lemma FrameTable(mode: Mode, frame: Frame)
    requires IsTable(mode.table)
    ensures FrameEffect(mode, frame).mode.table ==
      match frame.message
      case CResetOptions => IDENTITY
      case DSetOptions(options) =>
        if frame.body.Complete? && |options| % 2 == 0 then AfterOptions(mode.table, options) else mode.table
      case _ => mode.table
  {
    hide AfterOptions, IsTable;
    if mode.parser.ParseHandshake? {
      HandshakeTable(mode, frame);
    } else {
      MessageTable(mode, frame);
    }
  }

  lemma HandshakeTable(mode: Mode, frame: Frame)
    requires IsTable(mode.table)
    ensures HandshakeEffect(mode, frame).mode.table ==
      match frame.message
      case CResetOptions => IDENTITY
      case DSetOptions(options) =>
        if frame.body.Complete? && |options| % 2 == 0 then AfterOptions(mode.table, options) else mode.table
      case _ => mode.table
  {
    hide AfterOptions;
  }

  lemma MessageTable(mode: Mode, frame: Frame)
    requires IsTable(mode.table)
    ensures MessageEffect(mode, frame).mode.table ==
      match frame.message
      case CResetOptions => IDENTITY
      case DSetOptions(options) =>
        if frame.body.Complete? && |options| % 2 == 0 then AfterOptions(mode.table, options) else mode.table
      case _ => mode.table
  {
    hide AfterOptions;
  }

  lemma {:induction false} TableIsOptions(frames: seq<Frame>)
    ensures IsTable(IDENTITY) && ModeAfter(FIRST, frames).table == AfterOptions(IDENTITY, OptionsSince(frames))
  {
    IdentityTranslatesNothing(NO_KEY, {});
    if frames != [] {
      hide FrameEffect, AfterOptions, IsTable;
      var before, last := frames[..|frames| - 1], frames[|frames| - 1];
      TableIsOptions(before);
      FrameTable(ModeAfter(FIRST, before), last);
      if last.message.DSetOptions? && last.body.Complete? && |last.message.options| % 2 == 0 {
        AfterBoth(IDENTITY, OptionsSince(before), last.message.options);
      } else if last.message.CResetOptions? {
        NoOptions();
      }
    }
  }

  lemma NoOptions()
    ensures IsTable(IDENTITY) && AfterOptions(IDENTITY, []) == IDENTITY
  {
  }

  /** After any messages, in either phase, the table is that of the options set since they were last reset. */
  lemma {:induction false} TableFollowsOptions(frames: seq<Frame>)
    ensures IsTable(IDENTITY) && TableOf(OptionsSince(frames), ModeAfter(FIRST, frames).table)
  {
    hide TableOf, ModeAfter, OptionsSince, AfterOptions;
    TableIsOptions(frames);
    OptionsMakeTable(OptionsSince(frames));
  }

  // ---------- Whole runs ----------

  /** The messages that are handled in a run. */
  function HandledIn(events: seq<Event>): seq<Frame> {
    if events == [] then []
    else
      var before, event := events[..|events| - 1], events[|events| - 1];
      var mode := RunEffect(before).mode;
      HandledIn(before) + if mode.connected && event.Data? then Handled(mode, event.frames) else []
  }

  /** While the client is connected, an information change has motion ignored, and a batch asks for what its handled
      messages ask for, in order, and for its tail; after that nothing is done any more. */
  lemma RunAsks(events: seq<Event>, event: Event)
    ensures
      var before, after := RunEffect(events), RunEffect(events + [event]);
      after.inputs == before.inputs +
        if !before.mode.connected then []
        else match event
             case InfoChanged => [Ignoring(true)]
             case Data(frames, rest) =>
               InputsOf(before.mode, Handled(before.mode, frames)) + Tail(LastResult(before.mode, frames), rest)
    ensures RunEffect([]) == Effect(Mode(ParseHandshake, [0, 1, 2, 3, 4, 5, 6], true), [], Okay)
  {
    hide BatchEffect, InputsOf, Handled, LastResult, IsTable;
    assert (events + [event])[..|events|] == events;
    if event.Data? {
      BatchAsks(RunEffect(events).mode, event.frames, event.rest);
    }
  }

  /** Two modes that differ at most in whether the client is connected. */
  predicate Alike(one: Mode, other: Mode) {
    one.table == other.table && one.parser == other.parser
  }

  lemma EventMode(mode: Mode, other: Mode, event: Event)
    requires IsTable(mode.table) && Alike(mode, other)
    ensures
      var h := if event.Data? then Handled(mode, event.frames) else [];
      Alike(EventEffect(mode, event).mode, ModeAfter(other, h))
  {
    hide BatchEffect, ModeAfter, Handled, IsTable;
    if event.Data? {
      BatchAsks(mode, event.frames, event.rest);
      ModeOnly(mode, other, Handled(mode, event.frames));
    } else {
      InputsOfNone(other);
    }
  }

  lemma InputsOfNone(mode: Mode)
    requires IsTable(mode.table)
    ensures ModeAfter(mode, []) == mode && InputsOf(mode, []) == []
  {
  }

  lemma {:induction false} RunMode(events: seq<Event>)
    ensures IsTable(IDENTITY) && Alike(RunEffect(events).mode, ModeAfter(FIRST, HandledIn(events)))
  {
    IdentityTranslatesNothing(NO_KEY, {});
    if events == [] {
      InputsOfNone(FIRST);
    } else {
      hide EventEffect, ModeAfter, Handled, IsTable, Alike;
      var before, event := events[..|events| - 1], events[|events| - 1];
      var mode := RunEffect(before).mode;
      var h := if event.Data? then Handled(mode, event.frames) else [];
      RunMode(before);
      if mode.connected {
        EventMode(mode, ModeAfter(FIRST, HandledIn(before)), event);
        InputsOfMore(FIRST, HandledIn(before), h);
      } else {
        assert HandledIn(before) + [] == HandledIn(before);
      }
    }
  }

  /** Table and phase do not depend on whether the client is connected. */
  lemma {:induction false} ModeOnly(one: Mode, other: Mode, frames: seq<Frame>)
    requires IsTable(one.table) && Alike(one, other)
    ensures Alike(ModeAfter(one, frames), ModeAfter(other, frames))
  {
    if frames != [] {
      hide FrameEffect, IsTable;
      var n := |frames| - 1;
      ModeOnly(one, other, frames[..n]);
      SameFrame(ModeAfter(one, frames[..n]), ModeAfter(other, frames[..n]), frames[n]);
    }
  }

  lemma SameFrame(one: Mode, other: Mode, frame: Frame)
    requires IsTable(one.table) && one.table == other.table && one.parser == other.parser
    ensures FrameEffect(one, frame).mode.table == FrameEffect(other, frame).mode.table
    ensures FrameEffect(one, frame).mode.parser == FrameEffect(other, frame).mode.parser
  {
    hide AfterOptions, IsTable;
    FrameTable(one, frame);
    FrameTable(other, frame);
    PhaseOf(one, frame);
    PhaseOf(other, frame);
    hide FrameEffect;
  }

  /** The handshake ends with the first message that sets options and does not break the protocol. */
  lemma PhaseOf(mode: Mode, frame: Frame)
    requires IsTable(mode.table)
    ensures FrameEffect(mode, frame).mode.parser ==
      if frame.message.DSetOptions? && !frame.body.Illegal? then ParseMessages else mode.parser
  {
    hide AfterOptions;
  }

  /** Runs a proxy: its table is that of the options set by the messages that it handled, since the last reset. */
  method ServeTable(events: seq<Event>) returns (table: seq<ModifierID>)
    ensures TableOf(OptionsSince(HandledIn(events)), table)
  {
    hide RunEffect, ModeAfter, TableOf, OptionsSince, HandledIn, AllKeepOrder;
    var calls;
    calls, table := Serve(events);
    RunMode(events);
    TableFollowsOptions(HandledIn(events));
  }
}
