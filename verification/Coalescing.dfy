/** What the server proxy tells the client, and what becomes of it on the screen.
    Mouse motion that is held back and sent later is compared with motion that is sent at once. */
module Coalescing {
  import opened Options
  import opened Modifiers

  datatype Point = Point(x: int, y: int) {
    function Plus(delta: Point): Point {
      Point(x + delta.x, y + delta.y)
    }
  }

  const ORIGIN := Point(0, 0)

  datatype Refusal = IncompatibleVersion | AlreadyConnected | UnknownClient | ProtocolError

  /** The calls that the proxy makes on the client. */
  datatype Call =
    | MouseMove(to: Point)
    | MouseRelativeMove(delta: Point)
    | Enter(at: Point, seqNum: int, enterMask: Mask)
    | Leave
    | KeyDown(key: KeyID, mask: Mask, keyButton: int, lang: string)
    | KeyRepeat(key: KeyID, mask: Mask, count: int, keyButton: int, lang: string)
    | KeyUp(key: KeyID, mask: Mask, keyButton: int)
    | MouseDown(button: int)
    | MouseUp(button: int)
    | MouseWheel(delta: Point)
    | ScreenSaver(on: bool)
    | GrabClipboard(id: int)
    | SetClipboard(id: int)
    | OfferReceivedFiles
    | ResetOptions
    | SetOptions(options: seq<Word>)
    | HandshakeComplete
    | Disconnect(message: bool)
    | RefuseConnection(reason: Refusal)

  // ---------- The screen ----------

  /** Where the cursor is, and what was seen to happen where; calls that come without regard to the cursor
      are seen without a place. */
  datatype Screen = Screen(cursor: Point, journal: seq<(Call, Option<Point>)>)

  /** The calls before which the proxy brings the cursor up to date, and entering the screen, which places it. */
  predicate AtCursor(call: Call) {
    call.Enter? || call.Leave? || call.KeyDown? || call.KeyRepeat? || call.KeyUp?
    || call.MouseDown? || call.MouseUp? || call.MouseWheel?
  }

  function Show(s: Screen, call: Call): Screen {
    match call
    case MouseMove(to) => s.(cursor := to)
    case MouseRelativeMove(delta) => s.(cursor := s.cursor.Plus(delta))
    case Enter(at, _, _) => Screen(at, s.journal + [(call, Some(at))])
    case _ => s.(journal := s.journal + [(call, if AtCursor(call) then Some(s.cursor) else None)])
  }

  function ShowAll(s: Screen, calls: seq<Call>): Screen {
    if calls == [] then s else Show(ShowAll(s, calls[..|calls| - 1]), calls[|calls| - 1])
  }

  lemma {:induction false} ShowAllConcat(s: Screen, a: seq<Call>, b: seq<Call>)
    ensures ShowAll(s, a + b) == ShowAll(ShowAll(s, a), b)
  {
    if b == [] {
      assert a + b == a;
    } else {
      ShowAllConcat(s, a, b[..|b| - 1]);
      assert (a + b)[..|a + b| - 1] == a + b[..|b| - 1];
    }
  }

  // ---------- Holding motion back ----------

  /** Motion that is held back: a place to go to, a distance to go from there, or both. */
  datatype Pending = Pending(to: Option<Point>, delta: Option<Point>)

  const NOTHING := Pending(None, None)

  /** What the proxy is asked to do; `ready` says that more input was waiting when a move arrived. */
  datatype Input =
    | Absolute(to: Point, ready: bool)
    | Relative(delta: Point, ready: bool)
    | Entering(enter: Call)
    | AfterFlush(after: seq<Call>)
    | Plain(call: Call)
    | Ignoring(on: bool)

  datatype Proxy = Proxy(pending: Pending, ignore: bool, calls: seq<Call>)

  function Flushed(p: Pending): seq<Call> {
    (if p.to.Some? then [MouseMove(p.to.value)] else []) + (if p.delta.Some? then [MouseRelativeMove(p.delta.value)] else [])
  }

  function Next(s: Proxy, input: Input): Proxy {
    match input
    case Absolute(to, ready) =>
      if s.pending.to.Some? || (!s.ignore && ready) then s.(pending := Pending(Some(to), None))
      else if s.ignore then s
      else s.(calls := s.calls + [MouseMove(to)])
    case Relative(delta, ready) =>
      if s.pending.delta.Some? then s.(pending := Pending(s.pending.to, Some(s.pending.delta.value.Plus(delta))))
      else if s.ignore then s
      else if ready then s.(pending := Pending(s.pending.to, Some(delta)))
      else s.(calls := s.calls + [MouseRelativeMove(delta)])
    case Entering(enter) => s.(pending := NOTHING, calls := s.calls + [enter])
    case AfterFlush(after) => s.(pending := NOTHING, calls := s.calls + Flushed(s.pending) + after)
    case Plain(call) => s.(calls := s.calls + [call])
    case Ignoring(on) => s.(ignore := on)
  }

  /** The same without holding anything back: the reference. */
  function NextDirect(s: Proxy, input: Input): Proxy {
    match input
    case Absolute(to, _) => if s.ignore then s else s.(calls := s.calls + [MouseMove(to)])
    case Relative(delta, _) => if s.ignore then s else s.(calls := s.calls + [MouseRelativeMove(delta)])
    case Entering(enter) => s.(calls := s.calls + [enter])
    case AfterFlush(after) => s.(calls := s.calls + after)
    case Plain(call) => s.(calls := s.calls + [call])
    case Ignoring(on) => s.(ignore := on)
  }

  const START := Proxy(NOTHING, false, [])

  function Run(inputs: seq<Input>): Proxy {
    if inputs == [] then START else Next(Run(inputs[..|inputs| - 1]), inputs[|inputs| - 1])
  }

  function RunDirect(inputs: seq<Input>): Proxy {
    if inputs == [] then START else NextDirect(RunDirect(inputs[..|inputs| - 1]), inputs[|inputs| - 1])
  }

  /** Where the cursor comes to once the motion held back is sent. */
  function Land(p: Pending, cursor: Point): Point {
    var from := if p.to.Some? then p.to.value else cursor;
    if p.delta.Some? then from.Plus(p.delta.value) else from
  }

  /** Calls that a well-formed input may bring: no motion, and entering only as Entering. */
  predicate WellFormedInput(input: Input) {
    match input
    case Entering(enter) => enter.Enter?
    case AfterFlush(after) => |after| <= 1 && forall c :: c in after ==> AtCursor(c) && !c.Enter?
    case Plain(call) => !AtCursor(call) && !call.MouseMove? && !call.MouseRelativeMove?
    case _ => true
  }

  /** A move does not overtake motion of the other kind: a place to go to that arrives alone on a distance held
      back, or a distance on a place held back, finds more input waiting, or moves nothing.
      While motion is ignored, no motion of the same kind is held back that the move could still change. */
  predicate KeepsOrder(s: Proxy, input: Input) {
    match input
    case Absolute(to, ready) =>
      if s.ignore then s.pending.to.None? || Land(s.pending, ORIGIN) == to
      else s.pending.to.Some? || ready || s.pending.delta.None? || s.pending.delta.value == ORIGIN
    case Relative(delta, ready) =>
      if s.ignore then s.pending.delta.None? || delta == ORIGIN
      else s.pending.delta.Some? || ready || s.pending.to.None? || delta == ORIGIN
    case _ => true
  }

  /** The two ways agree: everything was seen where it would have been, and the cursor lands where it would be. */
  predicate Agree(start: Screen, held: Proxy, direct: Proxy) {
    var h, d := ShowAll(start, held.calls), ShowAll(start, direct.calls);
    && h.journal == d.journal
    && held.ignore == direct.ignore
    && Land(held.pending, h.cursor) == d.cursor
  }

  lemma ShowOne(s: Screen, calls: seq<Call>, call: Call)
    ensures ShowAll(s, calls + [call]) == Show(ShowAll(s, calls), call)
  {
    assert (calls + [call])[..|calls|] == calls;
  }

  lemma ShowSingle(s: Screen, call: Call)
    ensures ShowAll(s, [call]) == Show(s, call)
  {
    assert [call] == [] + [call];
    ShowOne(s, [], call);
  }

  lemma ShowFlushed(s: Screen, p: Pending)
    ensures ShowAll(s, Flushed(p)) == s.(cursor := Land(p, s.cursor))
  {
    hide ShowAll;
    if p.to.Some? {
      ShowSingle(s, MouseMove(p.to.value));
      if p.delta.Some? {
        ShowOne(s, [MouseMove(p.to.value)], MouseRelativeMove(p.delta.value));
      } else {
        assert Flushed(p) == [MouseMove(p.to.value)];
      }
    } else if p.delta.Some? {
      assert Flushed(p) == [MouseRelativeMove(p.delta.value)];
      ShowSingle(s, MouseRelativeMove(p.delta.value));
    } else {
      ShowNone(s);
    }
  }

  lemma ShowNone(s: Screen)
    ensures ShowAll(s, []) == s
  {
  }

  lemma ShowAfterFlush(s: Screen, calls: seq<Call>, p: Pending, after: seq<Call>)
    requires |after| <= 1
    ensures
      var h := ShowAll(s, calls);
      var f := h.(cursor := Land(p, h.cursor));
      ShowAll(s, calls + Flushed(p) + after) == if after == [] then f else Show(f, after[0])
  {
    ShowAllConcat(s, calls, Flushed(p));
    ShowFlushed(ShowAll(s, calls), p);
    if after != [] {
      ShowOne(s, calls + Flushed(p), after[0]);
      assert after == [after[0]];
    } else {
      assert calls + Flushed(p) + after == calls + Flushed(p);
    }
  }

  lemma AbsoluteAgrees(start: Screen, held: Proxy, direct: Proxy, to: Point, ready: bool)
    requires Agree(start, held, direct)
    ensures
      var held', direct' := Next(held, Absolute(to, ready)), NextDirect(direct, Absolute(to, ready));
      var h, d := ShowAll(start, held'.calls), ShowAll(start, direct'.calls);
      && h.journal == d.journal && held'.ignore == direct'.ignore
      && (Land(held'.pending, h.cursor) == d.cursor <==> KeepsOrder(held, Absolute(to, ready)))
  {
    hide ShowAll;
    ShowOne(start, held.calls, MouseMove(to));
    ShowOne(start, direct.calls, MouseMove(to));
  }

  lemma RelativeAgrees(start: Screen, held: Proxy, direct: Proxy, delta: Point, ready: bool)
    requires Agree(start, held, direct)
    ensures
      var held', direct' := Next(held, Relative(delta, ready)), NextDirect(direct, Relative(delta, ready));
      var h, d := ShowAll(start, held'.calls), ShowAll(start, direct'.calls);
      && h.journal == d.journal && held'.ignore == direct'.ignore
      && (Land(held'.pending, h.cursor) == d.cursor <==> KeepsOrder(held, Relative(delta, ready)))
  {
    hide ShowAll;
    ShowOne(start, held.calls, MouseRelativeMove(delta));
    ShowOne(start, direct.calls, MouseRelativeMove(delta));
  }

  /** Exactly the moves that keep order keep the agreement; whatever a move does, it is only the cursor that differs. */
  lemma {:induction false} MoveAgrees(start: Screen, held: Proxy, direct: Proxy, input: Input)
    requires Agree(start, held, direct) && (input.Absolute? || input.Relative?)
    ensures
      var held', direct' := Next(held, input), NextDirect(direct, input);
      var h, d := ShowAll(start, held'.calls), ShowAll(start, direct'.calls);
      && h.journal == d.journal && held'.ignore == direct'.ignore
      && (Land(held'.pending, h.cursor) == d.cursor <==> KeepsOrder(held, input))
  {
    hide *;
    if input.Absolute? {
      AbsoluteAgrees(start, held, direct, input.to, input.ready);
    } else {
      RelativeAgrees(start, held, direct, input.delta, input.ready);
    }
  }

  lemma FlushAgrees(start: Screen, held: Proxy, direct: Proxy, after: seq<Call>)
    requires Agree(start, held, direct) && WellFormedInput(AfterFlush(after))
    ensures Agree(start, Next(held, AfterFlush(after)), NextDirect(direct, AfterFlush(after)))
  {
    hide ShowAll;
    ShowAfterFlush(start, held.calls, held.pending, after);
    ShowAfterFlush(start, direct.calls, NOTHING, after);
    assert direct.calls + Flushed(NOTHING) == direct.calls;
  }

  lemma CallAgrees(start: Screen, held: Proxy, direct: Proxy, input: Input)
    requires Agree(start, held, direct) && WellFormedInput(input)
    requires input.Entering? || input.Plain? || input.Ignoring?
    ensures Agree(start, Next(held, input), NextDirect(direct, input))
  {
    if !input.Ignoring? {
      var call := if input.Entering? then input.enter else input.call;
      ShowOne(start, held.calls, call);
      ShowOne(start, direct.calls, call);
    }
  }

  lemma StepAgrees(start: Screen, held: Proxy, direct: Proxy, input: Input)
    requires Agree(start, held, direct) && WellFormedInput(input)
    ensures Agree(start, Next(held, input), NextDirect(direct, input)) <==> KeepsOrder(held, input)
  {
    hide ShowAll, Next, NextDirect, Land;
    match input {
      case Absolute(_, _) => MoveAgrees(start, held, direct, input);
      case Relative(_, _) => MoveAgrees(start, held, direct, input);
      case AfterFlush(after) => FlushAgrees(start, held, direct, after);
      case _ => CallAgrees(start, held, direct, input);
    }
  }

  predicate AllKeepOrder(inputs: seq<Input>) {
    forall k :: 0 <= k < |inputs| ==> WellFormedInput(inputs[k]) && KeepsOrder(Run(inputs[..k]), inputs[k])
  }

  /** Holding motion back is invisible: in every run whose moves keep order, everything is seen where it would have
      been had each move been sent at once, and after a flush or on entering the cursor is where it would be. */
  lemma {:induction false} CoalescingIsInvisible(start: Screen, inputs: seq<Input>)
    requires AllKeepOrder(inputs)
    ensures Agree(start, Run(inputs), RunDirect(inputs))
    ensures inputs != [] && (inputs[|inputs| - 1].AfterFlush? || inputs[|inputs| - 1].Entering?) ==>
      ShowAll(start, Run(inputs).calls) == ShowAll(start, RunDirect(inputs).calls)
  {
    if inputs != [] {
      hide Next, NextDirect, Agree, ShowAll, AllKeepOrder, KeepsOrder, WellFormedInput;
      var n := |inputs| - 1;
      var before := inputs[..n];
      OrderBefore(inputs);
      CoalescingIsInvisible(start, before);
      StepAgrees(start, Run(before), RunDirect(before), inputs[n]);
      NothingLeft(start, Run(before), RunDirect(before), inputs[n]);
      hide *;
    } else {
      assert Agree(start, START, START);
    }
  }

  lemma OrderBefore(inputs: seq<Input>)
    requires inputs != [] && AllKeepOrder(inputs)
    ensures AllKeepOrder(inputs[..|inputs| - 1])
    ensures
      var n := |inputs| - 1;
      WellFormedInput(inputs[n]) && KeepsOrder(Run(inputs[..n]), inputs[n])
  {
    hide Run, WellFormedInput, KeepsOrder;
    var before := inputs[..|inputs| - 1];
    forall k | 0 <= k < |before| ensures WellFormedInput(before[k]) && KeepsOrder(Run(before[..k]), before[k]) {
      assert before[..k] == inputs[..k] && before[k] == inputs[k];
    }
  }

  /** After a flush, or on entering, agreeing is showing the same. */
  lemma NothingLeft(start: Screen, held: Proxy, direct: Proxy, input: Input)
    requires Agree(start, Next(held, input), NextDirect(direct, input))
    ensures input.AfterFlush? || input.Entering? ==>
      ShowAll(start, Next(held, input).calls) == ShowAll(start, NextDirect(direct, input).calls)
  {
    hide ShowAll;
  }

  /** The first move of a run that does not keep order puts the cursor out of place, as the next flush shows. */
  lemma {:induction false} FirstBreakShows(start: Screen, inputs: seq<Input>, next: Input)
    requires AllKeepOrder(inputs) && WellFormedInput(next) && !KeepsOrder(Run(inputs), next)
    ensures
      var run := inputs + [next] + [AfterFlush([])];
      ShowAll(start, Run(run).calls).cursor != ShowAll(start, RunDirect(run).calls).cursor
  {
    hide Next, NextDirect, Agree, ShowAll, AllKeepOrder, KeepsOrder, WellFormedInput, Run, RunDirect, Land;
    CoalescingIsInvisible(start, inputs);
    OutOfOrderIsMove(Run(inputs), next);
    MoveAgrees(start, Run(inputs), RunDirect(inputs), next);
    RunOne(inputs, next);
    RunOne(inputs + [next], AfterFlush([]));
    FlushShows(start, Next(Run(inputs), next), NextDirect(RunDirect(inputs), next));
    hide *;
  }

  lemma OutOfOrderIsMove(s: Proxy, input: Input)
    requires !KeepsOrder(s, input)
    ensures input.Absolute? || input.Relative?
  {
  }

  /** A flush brings the cursor where the motion held back lands. */
  lemma FlushShows(start: Screen, held: Proxy, direct: Proxy)
    ensures ShowAll(start, Next(held, AfterFlush([])).calls).cursor
         == Land(held.pending, ShowAll(start, held.calls).cursor)
    ensures ShowAll(start, NextDirect(direct, AfterFlush([])).calls).cursor == ShowAll(start, direct.calls).cursor
  {
    hide ShowAll;
    ShowAfterFlush(start, held.calls, held.pending, []);
    assert direct.calls + [] == direct.calls;
  }

  lemma RunOne(inputs: seq<Input>, next: Input)
    ensures Run(inputs + [next]) == Next(Run(inputs), next)
    ensures RunDirect(inputs + [next]) == NextDirect(RunDirect(inputs), next)
  {
    assert (inputs + [next])[..|inputs|] == inputs;
  }

  /** While more input waits, moves that are not ignored are held back. */
  lemma HeldBack(inputs: seq<Input>, to: Point)
    requires !Run(inputs).ignore
    ensures Run(inputs + [Absolute(to, true)]).calls == Run(inputs).calls
    ensures Run(inputs + [Relative(to, true)]).calls == Run(inputs).calls
  {
    hide Run, RunDirect, NextDirect;
    RunOne(inputs, Absolute(to, true));
    RunOne(inputs, Relative(to, true));
  }

  /** With nothing of its kind held back, a move that has no input behind it is sent at once, or ignored. */
  lemma SentAtOnce(inputs: seq<Input>, to: Point)
    ensures
      var s, next := Run(inputs), Run(inputs + [Absolute(to, false)]);
      s.pending.to.None? ==> next == s.(calls := s.calls + if s.ignore then [] else [MouseMove(to)])
    ensures
      var s, next := Run(inputs), Run(inputs + [Relative(to, false)]);
      s.pending.delta.None? ==> next == s.(calls := s.calls + if s.ignore then [] else [MouseRelativeMove(to)])
  {
    hide Run, RunDirect, NextDirect;
    RunOne(inputs, Absolute(to, false));
    RunOne(inputs, Relative(to, false));
    assert Run(inputs).calls + [] == Run(inputs).calls;
  }

  /** On entering, motion that is held back is dropped; a flush sends at most one move of each kind, the place first. */
  lemma NoneHeldAfter(inputs: seq<Input>, enter: Call, after: seq<Call>)
    ensures Run(inputs + [Entering(enter)]) == Run(inputs).(pending := NOTHING, calls := Run(inputs).calls + [enter])
    ensures
      var s := Run(inputs);
      var place := if s.pending.to.Some? then [MouseMove(s.pending.to.value)] else [];
      var distance := if s.pending.delta.Some? then [MouseRelativeMove(s.pending.delta.value)] else [];
      Run(inputs + [AfterFlush(after)]) == s.(pending := NOTHING, calls := s.calls + (place + distance) + after)
  {
    hide Run, RunDirect, NextDirect;
    RunOne(inputs, Entering(enter));
    RunOne(inputs, AfterFlush(after));
  }

  /** Motion is ignored exactly from an information change on until it is acknowledged. */
  lemma {:induction false} IgnoredExactly(inputs: seq<Input>)
    ensures Run(inputs).ignore <==>
      exists k :: 0 <= k < |inputs| && inputs[k] == Ignoring(true)
                  && forall later :: k < later < |inputs| ==> !inputs[later].Ignoring?
    ensures RunDirect(inputs).ignore == Run(inputs).ignore
  {
    if inputs != [] {
      var n := |inputs| - 1;
      IgnoredExactly(inputs[..n]);
      if !inputs[n].Ignoring? {
        assert forall k :: 0 <= k < n ==> inputs[..n][k] == inputs[k];
      }
    }
  }

  /** A distance held back, then a place with nothing waiting behind it: the distance is added too late. */
  lemma OrderMatters()
    ensures
      var inputs := [] + [Relative(Point(5, 0), true)] + [Absolute(Point(100, 100), false)] + [AfterFlush([])];
      && Run(inputs).calls == [MouseMove(Point(100, 100)), MouseRelativeMove(Point(5, 0))]
      && RunDirect(inputs).calls == [MouseRelativeMove(Point(5, 0)), MouseMove(Point(100, 100))]
      && ShowAll(Screen(ORIGIN, []), Run(inputs).calls).cursor == Point(105, 100)
      && ShowAll(Screen(ORIGIN, []), RunDirect(inputs).calls).cursor == Point(100, 100)
  {
    var a, b, c := Relative(Point(5, 0), true), Absolute(Point(100, 100), false), AfterFlush([]);
    RunOne([], a);
    RunOne([] + [a], b);
    RunOne([] + [a] + [b], c);
    ShowOne(Screen(ORIGIN, []), [MouseMove(Point(100, 100))], MouseRelativeMove(Point(5, 0)));
    ShowOne(Screen(ORIGIN, []), [MouseRelativeMove(Point(5, 0))], MouseMove(Point(100, 100)));
  }
}
