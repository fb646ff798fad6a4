/** The session: `dispatch` turns commands of the client into key and mouse events. The daemon throws these
    away, so what is said of a desk below is said of the messages `dispatch` returns, replayed on one. */
module SessionState {
  import opened Common

  datatype State = Disconnected | Connecting | Connected

  datatype Config = Config(peerId: string, password: Option<string>, server: Option<string>)

  /** The commands. `Passive` stands for those that only need a connection and emit nothing here: shell, exec,
      push, both clipboard commands, capture and displays. */
  datatype Command =
    | Connect(config: Config)
    | Disconnect
    | Type(text: string)
    | Key(key: string)
    | Click(x: int, y: int, button: string, double: bool)
    | Drag(x: int, y: int, x2: int, y2: int, button: string)
    | Scroll(x: int, y: int, delta: int)
    | Move(x: int, y: int)
    | Status
    | Passive

  datatype Message =
    | KeyEvent(characters: string, down: bool)
    | MouseEvent(x: int, y: int, mask: nat, isMove: bool)
    | Bye

  datatype Reply = ConnectedTo(peer: string) | AlreadyConnected | DisconnectedFrom(peer: string) | Done | NoSession

  predicate Failed(r: Reply) {
    r.AlreadyConnected? || r.NoSession?
  }

  const BUTTON_LEFT: nat := 1
  const BUTTON_RIGHT: nat := 2
  const BUTTON_MIDDLE: nat := 4
  const SCROLL_UP: nat := 8
  const SCROLL_DOWN: nat := 16

  function ButtonMask(button: string): (mask: nat)
    ensures mask > 0
  {
    if button == "right" then BUTTON_RIGHT else if button == "middle" then BUTTON_MIDDLE else BUTTON_LEFT
  }

  /** `i32::abs`, which wraps on the least value. */
  function AbsI32(d: int): int {
    if d == I32_MIN then I32_MIN else if d < 0 then -d else d
  }

  // ----- Specification -----

  /** The fields of a session, as a value. */
  datatype View = View(state: State, config: Option<Config>, peerInfo: Option<string>)

  const NEW: View := View(Disconnected, None, None)

  function Pairs(a: Message, b: Message, n: nat): seq<Message> {
    if n == 0 then [] else Pairs(a, b, n - 1) + [a, b]
  }

  function Typing(text: string): seq<Message> {
    if text == [] then []
    else
      var key := [text[|text| - 1]];
      Typing(text[..|text| - 1]) + [KeyEvent(key, true), KeyEvent(key, false)]
  }

  /** The messages of a command in a connected session. */
  function Emitted(c: Command): seq<Message> {
    match c
    case Disconnect => [Bye]
    case Type(text) => Typing(text)
    case Key(key) => [KeyEvent(key, true), KeyEvent(key, false)]
    case Click(x, y, button, double) =>
      var mask := ButtonMask(button);
      Pairs(MouseEvent(x, y, mask, false), MouseEvent(x, y, 0, false), if double then 2 else 1)
    case Drag(x, y, x2, y2, button) =>
      var mask := ButtonMask(button);
      [MouseEvent(x, y, mask, false), MouseEvent(x2, y2, mask, true), MouseEvent(x2, y2, 0, false)]
    case Scroll(x, y, delta) =>
      var mask := if delta >= 0 then SCROLL_UP else SCROLL_DOWN;
      Pairs(MouseEvent(x, y, mask, false), MouseEvent(x, y, 0, false), if AbsI32(delta) > 0 then AbsI32(delta) else 0)
    case Move(x, y) => [MouseEvent(x, y, 0, true)]
    case _ => []
  }

  function Answer(v: View, c: Command): Reply {
    match c
    case Connect(config) => if v.state == Connected then AlreadyConnected else ConnectedTo(config.peerId)
    case Status => Done
    case _ =>
      if v.state != Connected then NoSession
      else if c.Disconnect? then DisconnectedFrom(if v.config.Some? then v.config.value.peerId else "")
      else Done
  }

  function After(v: View, c: Command): View {
    if Failed(Answer(v, c)) then v
    else match c
         case Connect(config) => View(Connected, Some(config), v.peerInfo)
         case Disconnect => NEW
         case _ => v
  }

  function Sent(v: View, c: Command): seq<Message> {
    if Failed(Answer(v, c)) then [] else Emitted(c)
  }

  // ----- The session object -----

  class Session {
    var state: State
    var config: Option<Config>
    var peerInfo: Option<string>

    constructor ()
      ensures Value() == NEW
    {
      state, config, peerInfo := Disconnected, None, None;
    }

    function Value(): View
      reads this
    {
      View(state, config, peerInfo)
    }

    predicate RequireConnected()
      reads this
    {
      state == Connected
    }

    method Dispatch(c: Command) returns (reply: Reply, messages: seq<Message>)
      modifies this
      ensures Value() == After(old(Value()), c)
      ensures reply == Answer(old(Value()), c)
      ensures messages == Sent(old(Value()), c)
      ensures Failed(reply) ==> unchanged(this) && messages == []
    {
      messages := [];
      match c
      case Connect(newConfig) =>
        if state == Connected { return AlreadyConnected, messages; }
        state := Connecting;
        config := Some(newConfig);
        state := Connected;
        return ConnectedTo(newConfig.peerId), messages;
      case Disconnect =>
        if !RequireConnected() { return NoSession, messages; }
        var peer := if config.Some? then config.value.peerId else "";
        state, config, peerInfo := Disconnected, None, None;
        return DisconnectedFrom(peer), [Bye];
      case Type(text) =>
        if !RequireConnected() { return NoSession, messages; }
        for i := 0 to |text|
          invariant messages == Typing(text[..i])
        {
          messages := messages + [KeyEvent([text[i]], true)];
          messages := messages + [KeyEvent([text[i]], false)];
          assert text[..i + 1][..i] == text[..i];
        }
        assert text[..|text|] == text;
        return Done, messages;
      case Key(key) =>
        if !RequireConnected() { return NoSession, messages; }
        return Done, [KeyEvent(key, true), KeyEvent(key, false)];
      case Click(x, y, button, double) =>
        if !RequireConnected() { return NoSession, messages; }
        var press, release := MouseEvent(x, y, ButtonMask(button), false), MouseEvent(x, y, 0, false);
        var clickPair := [press, release];
        assert Pairs(press, release, 1) == Pairs(press, release, 0) + clickPair == clickPair;
        messages := if double then clickPair + clickPair else clickPair;
        return Done, messages;
      case Drag(x, y, x2, y2, button) =>
        if !RequireConnected() { return NoSession, messages; }
        var mask := ButtonMask(button);
        messages := [MouseEvent(x, y, mask, false), MouseEvent(x2, y2, mask, true), MouseEvent(x2, y2, 0, false)];
        return Done, messages;
      case Scroll(x, y, delta) =>
        if !RequireConnected() { return NoSession, messages; }
        var mask := if delta >= 0 then SCROLL_UP else SCROLL_DOWN;
        var i := 0;
        while i < AbsI32(delta)
          invariant 0 <= i && (i <= AbsI32(delta) || i == 0)
          invariant messages == Pairs(MouseEvent(x, y, mask, false), MouseEvent(x, y, 0, false), i)
        {
          messages := messages + [MouseEvent(x, y, mask, false)];
          messages := messages + [MouseEvent(x, y, 0, false)];
          i := i + 1;
        }
        return Done, messages;
      case Move(x, y) =>
        if !RequireConnected() { return NoSession, messages; }
        return Done, [MouseEvent(x, y, 0, true)];
      case Status => return Done, messages;
      case Passive =>
        if !RequireConnected() { return NoSession, messages; }
        return Done, messages;
    }
  }

  // ----- What the returned messages do on a desk -----

  /** A button held from one place to another. */
  datatype Stroke = Stroke(mask: nat, fromX: int, fromY: int, toX: int, toY: int)

  /** A desk: keys held, keys pressed so far, the buttons held and where they were pressed, and the
      strokes completed so far. */
  datatype Desk = Desk(
    down: set<string>, pressed: seq<string>, mask: nat, originX: int, originY: int, strokes: seq<Stroke>)

  predicate AtRest(d: Desk) {
    d.down == {} && d.mask == 0
  }

  function Sees(d: Desk, m: Message): Desk {
    match m
    case KeyEvent(key, true) => d.(down := d.down + {key}, pressed := d.pressed + [key])
    case KeyEvent(key, false) => d.(down := d.down - {key})
    case MouseEvent(x, y, mask, _) =>
      if mask != 0 && d.mask == 0 then d.(mask := mask, originX := x, originY := y)
      else if mask == 0 && d.mask != 0 then
        d.(mask := 0, strokes := d.strokes + [Stroke(d.mask, d.originX, d.originY, x, y)])
      else d.(mask := mask)
    case Bye => d
  }

  function Replay(d: Desk, ms: seq<Message>): Desk {
    if ms == [] then d else Sees(Replay(d, ms[..|ms| - 1]), ms[|ms| - 1])
  }

  lemma {:induction false} ReplayJoin(d: Desk, a: seq<Message>, b: seq<Message>)
    ensures Replay(d, a + b) == Replay(Replay(d, a), b)
  {
    if b == [] {
      assert a + b == a;
    } else {
      assert (a + b)[..|a + b| - 1] == a + b[..|b| - 1];
      ReplayJoin(d, a, b[..|b| - 1]);
    }
  }

  lemma ReplayPair(d: Desk, a: Message, b: Message)
    ensures Replay(d, [a, b]) == Sees(Sees(d, a), b)
  {
    assert [a, b][..1] == [a] && [a][..0] == [];
    assert Replay(d, [a]) == Sees(Replay(d, []), a);
  }

  function Repeat<T>(x: T, n: nat): (r: seq<T>)
    ensures |r| == n && forall i :: 0 <= i < n ==> r[i] == x
  {
    if n == 0 then [] else Repeat(x, n - 1) + [x]
  }

  function Characters(text: string): (keys: seq<string>)
    ensures |keys| == |text| && forall i :: 0 <= i < |text| ==> keys[i] == [text[i]]
  {
    if text == [] then [] else Characters(text[..|text| - 1]) + [[text[|text| - 1]]]
  }

  /** The keys a command means to press, in order. */
  function KeysMeant(c: Command): seq<string> {
    match c
    case Type(text) => Characters(text)
    case Key(key) => [key]
    case _ => []
  }

  /** The strokes a command means to make: a scroll by `delta` is that many notches. */
  function StrokesMeant(c: Command): seq<Stroke> {
    match c
    case Click(x, y, button, double) => Repeat(Stroke(ButtonMask(button), x, y, x, y), if double then 2 else 1)
    case Drag(x, y, x2, y2, button) => [Stroke(ButtonMask(button), x, y, x2, y2)]
    case Scroll(x, y, delta) =>
      if delta >= 0 then Repeat(Stroke(SCROLL_UP, x, y, x, y), delta)
      else Repeat(Stroke(SCROLL_DOWN, x, y, x, y), -delta)
    case _ => []
  }

  /** A scroll by the least `i32`, whose absolute value wraps. */
  predicate ScrollsByMin(c: Command) {
    c.Scroll? && c.delta == I32_MIN
  }

  lemma {:induction false} ReplayTyping(d: Desk, text: string)
    requires AtRest(d)
    ensures AtRest(Replay(d, Typing(text)))
    ensures Replay(d, Typing(text)).pressed == d.pressed + Characters(text)
    ensures Replay(d, Typing(text)).strokes == d.strokes
  {
    if text != [] {
      var shorter, key := text[..|text| - 1], [text[|text| - 1]];
      ReplayTyping(d, shorter);
      ReplayJoin(d, Typing(shorter), [KeyEvent(key, true), KeyEvent(key, false)]);
      ReplayPair(Replay(d, Typing(shorter)), KeyEvent(key, true), KeyEvent(key, false));
    }
  }

  lemma {:induction false} ReplayPresses(d: Desk, x: int, y: int, mask: nat, n: nat)
    requires AtRest(d) && mask > 0
    ensures var r := Replay(d, Pairs(MouseEvent(x, y, mask, false), MouseEvent(x, y, 0, false), n));
            && AtRest(r) && r.pressed == d.pressed
            && r.strokes == d.strokes + Repeat(Stroke(mask, x, y, x, y), n)
  {
    var a, b := MouseEvent(x, y, mask, false), MouseEvent(x, y, 0, false);
    if n > 0 {
      ReplayPresses(d, x, y, mask, n - 1);
      ReplayJoin(d, Pairs(a, b, n - 1), [a, b]);
      ReplayPair(Replay(d, Pairs(a, b, n - 1)), a, b);
    }
  }

  /** Replayed on a desk at rest, the messages of a command leave it at rest, having pressed exactly the keys
      and made exactly the strokes the command means; the only exception is the scroll by the least `i32`,
      which makes none. */
  lemma CommandSeen(d: Desk, c: Command)
    requires AtRest(d)
    ensures var r := Replay(d, Emitted(c));
            && AtRest(r) && r.pressed == d.pressed + KeysMeant(c)
            && r.strokes == d.strokes + if ScrollsByMin(c) then [] else StrokesMeant(c)
  {
    hide Pairs, Repeat, Characters;
    match c
    case Type(text) => ReplayTyping(d, text);
    case Click(x, y, button, double) => ReplayPresses(d, x, y, ButtonMask(button), if double then 2 else 1);
    case Scroll(x, y, delta) =>
      var mask := if delta >= 0 then SCROLL_UP else SCROLL_DOWN;
      var n := if AbsI32(delta) > 0 then AbsI32(delta) else 0;
      ReplayPresses(d, x, y, mask, n);
      RepeatNothing(Stroke(mask, x, y, x, y));
    case Key(key) => ReplayPair(d, KeyEvent(key, true), KeyEvent(key, false));
    case Drag(x, y, x2, y2, button) =>
      var mask := ButtonMask(button);
      var a, b, e := MouseEvent(x, y, mask, false), MouseEvent(x2, y2, mask, true), MouseEvent(x2, y2, 0, false);
      ReplayPair(d, a, b);
      assert [a, b, e][..2] == [a, b];
    case Move(x, y) => assert [MouseEvent(x, y, 0, true)][..0] == [];
    case Disconnect => assert [Bye][..0] == [];
    case _ =>
  }

  /** The messages of a command, replayed on a desk at rest, make the strokes it means if and only if it is
      not the scroll by the least `i32`. */
  lemma AsMeantIff(d: Desk, c: Command)
    requires AtRest(d)
    ensures Replay(d, Emitted(c)).strokes == d.strokes + StrokesMeant(c) <==> !ScrollsByMin(c)
  {
    CommandSeen(d, c);
    assert ScrollsByMin(c) ==> |StrokesMeant(c)| == -I32_MIN;
  }

  lemma RepeatNothing<T>(x: T)
    ensures Repeat(x, 0) == []
  {
  }

  /** Which commands fail, and what the others do to the fields. */
  lemma FieldsAfter(v: View, c: Command)
    ensures Failed(Answer(v, c)) <==>
              (c.Connect? && v.state == Connected) || (!c.Connect? && !c.Status? && v.state != Connected)
    ensures Failed(Answer(v, c)) || !(c.Connect? || c.Disconnect?) ==> After(v, c) == v
    ensures c.Connect? && v.state != Connected ==>
              && After(v, c).state == Connected && After(v, c).config == Some(c.config)
              && After(v, c).peerInfo == v.peerInfo
    ensures c.Disconnect? && v.state == Connected ==>
              After(v, c).state == Disconnected && After(v, c).config == None && After(v, c).peerInfo == None
  {
  }

  // ----- The messages, number by number -----

  lemma {:induction false} PairsAt(a: Message, b: Message, n: nat, i: nat)
    requires i < n
    ensures |Pairs(a, b, n)| == 2 * n && Pairs(a, b, n)[2 * i] == a && Pairs(a, b, n)[2 * i + 1] == b
  {
    if n > 1 { PairsAt(a, b, n - 1, if i < n - 1 then i else 0); }
  }

  lemma {:induction false} TypingAt(text: string, i: nat)
    requires i < |text|
    ensures |Typing(text)| == 2 * |text|
    ensures Typing(text)[2 * i] == KeyEvent([text[i]], true) && Typing(text)[2 * i + 1] == KeyEvent([text[i]], false)
  {
    if |text| > 1 { TypingAt(text[..|text| - 1], if i < |text| - 1 then i else 0); }
  }

  /** The mask a button has on the wire. */
  predicate HasMask(button: string, mask: nat) {
    if button == "right" then mask == 2 else if button == "middle" then mask == 4 else mask == 1
  }

  /** What `dispatch` returns in a connected session, message by message: a click is a press and a release, twice
      for a double click, with the mask of its button; a drag presses, moves and releases; a scroll of `delta` has
      `|delta|` presses and releases of mask 8 upwards and 16 downwards; typing has two events per character. */
  lemma ReturnedMessages(v: View, c: Command, mask: nat, i: nat)
    requires v.state == Connected
    ensures c.Click? && HasMask(c.button, mask) ==>
              var press, release := MouseEvent(c.x, c.y, mask, false), MouseEvent(c.x, c.y, 0, false);
              Sent(v, c) == if c.double then [press, release, press, release] else [press, release]
    ensures c.Drag? && HasMask(c.button, mask) ==>
              Sent(v, c) == [MouseEvent(c.x, c.y, mask, false), MouseEvent(c.x2, c.y2, mask, true),
                             MouseEvent(c.x2, c.y2, 0, false)]
    ensures c.Scroll? && 0 < c.delta ==>
              && |Sent(v, c)| == 2 * c.delta
              && (i < c.delta ==>
                    && Sent(v, c)[2 * i] == MouseEvent(c.x, c.y, 8, false)
                    && Sent(v, c)[2 * i + 1] == MouseEvent(c.x, c.y, 0, false))
    ensures c.Scroll? && I32_MIN < c.delta < 0 ==>
              && |Sent(v, c)| == 2 * -c.delta
              && (i < -c.delta ==>
                    && Sent(v, c)[2 * i] == MouseEvent(c.x, c.y, 16, false)
                    && Sent(v, c)[2 * i + 1] == MouseEvent(c.x, c.y, 0, false))
    ensures c.Scroll? && (c.delta == 0 || c.delta == I32_MIN) ==> Sent(v, c) == []
    ensures c.Type? ==>
              && |Sent(v, c)| == 2 * |c.text|
              && (i < |c.text| ==>
                    && Sent(v, c)[2 * i] == KeyEvent([c.text[i]], true)
                    && Sent(v, c)[2 * i + 1] == KeyEvent([c.text[i]], false))
    ensures c.Key? ==> Sent(v, c) == [KeyEvent(c.key, true), KeyEvent(c.key, false)]
    ensures c.Move? ==> Sent(v, c) == [MouseEvent(c.x, c.y, 0, true)]
    ensures c.Disconnect? ==> Sent(v, c) == [Bye]
    ensures c.Connect? || c.Status? || c.Passive? ==> Sent(v, c) == []
  {
    match c
    case Click(x, y, button, double) =>
      var press, release := MouseEvent(x, y, ButtonMask(button), false), MouseEvent(x, y, 0, false);
      assert Pairs(press, release, 1) == Pairs(press, release, 0) + [press, release] == [press, release];
      assert Pairs(press, release, 2) == [press, release] + [press, release];
    case Scroll(x, y, delta) =>
      var n := if AbsI32(delta) > 0 then AbsI32(delta) else 0;
      var up := if delta >= 0 then SCROLL_UP else SCROLL_DOWN;
      hide Pairs;
      PairsNone(MouseEvent(x, y, up, false), MouseEvent(x, y, 0, false));
      if n > 0 { PairsAt(MouseEvent(x, y, up, false), MouseEvent(x, y, 0, false), n, if i < n then i else 0); }
    case Type(text) =>
      if text != [] { TypingAt(text, if i < |text| then i else 0); }
    case _ =>
  }

  lemma PairsNone(a: Message, b: Message)
    ensures Pairs(a, b, 0) == []
  {
  }

  // ----- Runs -----

  /** The fields after a run, and all messages `dispatch` returned during it. */
  function RunFrom(v: View, cs: seq<Command>): (View, seq<Message>) {
    if cs == [] then (v, [])
    else
      var (before, sent) := RunFrom(v, cs[..|cs| - 1]);
      (After(before, cs[|cs| - 1]), sent + Sent(before, cs[|cs| - 1]))
  }

  /** Of the commands of a run, those that did not fail. */
  function Accepted(v: View, cs: seq<Command>): seq<Command> {
    if cs == [] then []
    else
      var c := cs[|cs| - 1];
      Accepted(v, cs[..|cs| - 1]) + if Failed(Answer(RunFrom(v, cs[..|cs| - 1]).0, c)) then [] else [c]
  }

  /** The keys and strokes that commands mean, in order. */
  function Meant(cs: seq<Command>): (seq<string>, seq<Stroke>) {
    if cs == [] then ([], [])
    else
      var c, (keys, strokes) := cs[|cs| - 1], Meant(cs[..|cs| - 1]);
      (keys + KeysMeant(c), strokes + StrokesMeant(c))
  }

  /** The commands without the scrolls by the least `i32`. */
  function WithoutMin(cs: seq<Command>): (r: seq<Command>)
    ensures NoMin(cs) ==> r == cs
  {
    if cs == [] then []
    else
      var c := cs[|cs| - 1];
      WithoutMin(cs[..|cs| - 1]) + if ScrollsByMin(c) then [] else [c]
  }

  lemma MeantMore(cs: seq<Command>, c: Command)
    ensures Meant(cs + [c]) == (Meant(cs).0 + KeysMeant(c), Meant(cs).1 + StrokesMeant(c))
    ensures WithoutMin(cs + [c]) == WithoutMin(cs) + if ScrollsByMin(c) then [] else [c]
  {
    assert (cs + [c])[..|cs|] == cs;
  }

  /** After every run (so after each of its commands) the messages returned, replayed on a desk at rest, leave
      no key down and no button held, and pressed exactly the keys and made exactly the strokes meant by the
      commands that did not fail, in order, but for scrolls by the least `i32`. */
  lemma {:induction false} RunSeen(v: View, cs: seq<Command>, d: Desk)
    requires AtRest(d)
    ensures var r := Replay(d, RunFrom(v, cs).1); var done := WithoutMin(Accepted(v, cs));
            && AtRest(r) && r.pressed == d.pressed + Meant(done).0 && r.strokes == d.strokes + Meant(done).1
  {
    hide Emitted, StrokesMeant, KeysMeant, Sees, Answer, Failed, After, AtRest, Replay, ScrollsByMin;
    if cs == [] {
      ReplayNothing(d);
    } else {
      hide Meant, WithoutMin;
      var before, c := cs[..|cs| - 1], cs[|cs| - 1];
      RunSeen(v, before, d);
      var (w, sent) := RunFrom(v, before);
      var accepted := Accepted(v, before);
      var done := WithoutMin(accepted);
      var e := Replay(d, sent);
      ReplayJoin(d, sent, Sent(w, c));
      if Failed(Answer(w, c)) {
        ReplayNothing(e);
        assert accepted + [] == accepted;
      } else {
        CommandSeen(e, c);
        MeantMore(accepted, c);
        MeantMore(done, c);
        MinMeansNoKey(c);
        assert done + [] == done && e.strokes + [] == e.strokes && e.pressed + [] == e.pressed;
        ConcatAssociative(d.pressed, Meant(done).0, KeysMeant(c));
        ConcatAssociative(d.strokes, Meant(done).1, StrokesMeant(c));
      }
    }
  }

  lemma MinMeansNoKey(c: Command)
    ensures ScrollsByMin(c) ==> KeysMeant(c) == []
  {
  }

  /** Fewer strokes are meant without those scrolls. */
  lemma {:induction false} MinMeansStrokes(cs: seq<Command>)
    ensures |Meant(WithoutMin(cs)).1| <= |Meant(cs).1|
    ensures |Meant(WithoutMin(cs)).1| == |Meant(cs).1| <==> NoMin(cs)
  {
    hide Meant, WithoutMin, ScrollsByMin, StrokesMeant, KeysMeant, NoMin;
    if cs == [] {
      NothingMeant();
    } else {
      var before, c := cs[..|cs| - 1], cs[|cs| - 1];
      MinMeansStrokes(before);
      assert before + [c] == cs;
      var kept := WithoutMin(before);
      assert kept + [] == kept;
      MeantMore(before, c);
      MeantMore(kept, c);
      MinStrokes(c);
      AllOfOneMore(before, c);
    }
  }

  predicate NoMin(cs: seq<Command>) {
    forall c <- cs :: !ScrollsByMin(c)
  }

  lemma NothingMeant()
    ensures Meant(WithoutMin([])).1 == Meant([]).1 && NoMin([])
  {
  }

  lemma AllOfOneMore(cs: seq<Command>, c: Command)
    ensures NoMin(cs + [c]) <==> NoMin(cs) && !ScrollsByMin(c)
  {
    hide ScrollsByMin;
    assert forall x <- cs :: x in cs + [c];
    assert c in cs + [c];
    assert forall x <- cs + [c] :: x in cs || x == c;
  }

  lemma MinStrokes(c: Command)
    ensures ScrollsByMin(c) ==> |StrokesMeant(c)| == -I32_MIN
  {
  }

  /** A run makes the strokes its commands mean if and only if none of those that did not fail is a scroll by
      the least `i32`. */
  lemma RunAsMeantIff(v: View, cs: seq<Command>, d: Desk)
    requires AtRest(d)
    ensures Replay(d, RunFrom(v, cs).1).strokes == d.strokes + Meant(Accepted(v, cs)).1
       <==> NoMin(Accepted(v, cs))
  {
    hide AtRest, Replay, RunFrom, Meant, NoMin, WithoutMin, Accepted;
    var accepted := Accepted(v, cs);
    RunSeen(v, cs, d);
    MinMeansStrokes(accepted);
    var seen, meant := Meant(WithoutMin(accepted)).1, Meant(accepted).1;
    assert (d.strokes + seen)[|d.strokes|..] == seen && (d.strokes + meant)[|d.strokes|..] == meant;
  }

  lemma ReplayNothing(d: Desk)
    ensures Replay(d, []) == d
  {
  }

  /** The first `Connect` since the last `Disconnect`, with its configuration. */
  ghost predicate Opens(cs: seq<Command>, i: nat, config: Config) {
    && i < |cs| && cs[i] == Connect(config)
    && (forall j :: i < j < |cs| ==> !cs[j].Disconnect?)
    && forall j :: 0 <= j < i && cs[j].Connect? ==> exists k :: j < k < i && cs[k].Disconnect?
  }

  /** Every connect is followed by a disconnect. */
  ghost predicate Closed(cs: seq<Command>) {
    forall j :: 0 <= j < |cs| && cs[j].Connect? ==> exists k :: j < k < |cs| && cs[k].Disconnect?
  }

  lemma OpensUnique(cs: seq<Command>, i: nat, config: Config, i': nat, config': Config)
    requires Opens(cs, i, config) && Opens(cs, i', config')
    ensures i == i' && config == config'
  {
  }

  lemma OpensStep(cs: seq<Command>, c: Command)
    ensures c.Disconnect? ==> Closed(cs + [c])
    ensures Closed(cs) && c.Connect? ==> Opens(cs + [c], |cs|, c.config)
    ensures Closed(cs) && !c.Connect? ==> Closed(cs + [c])
    ensures forall i, config :: Opens(cs, i, config) && !c.Disconnect? ==> Opens(cs + [c], i, config)
  {
    var more := cs + [c];
    assert more[|cs|] == c;
    assert forall j :: 0 <= j < |cs| ==> more[j] == cs[j];
    forall j | Closed(cs) && 0 <= j < |cs| && more[j].Connect?
      ensures exists k :: j < k < |cs| && more[k].Disconnect?
    {
      var k :| j < k < |cs| && cs[k].Disconnect?;
      assert more[k].Disconnect?;
    }
    forall i: nat, config | Opens(cs, i, config) && !c.Disconnect? ensures Opens(more, i, config) {
      forall j | 0 <= j < i && more[j].Connect? ensures exists k :: j < k < i && more[k].Disconnect? {
        var k :| j < k < i && cs[k].Disconnect?;
        assert more[k].Disconnect?;
      }
    }
  }

  /** The stored configuration is that of the first connect since the last disconnect, and the session is
      connected exactly while one is stored. It never stays `Connecting`. */
  lemma {:induction false} ConfigStored(cs: seq<Command>)
    ensures var v := RunFrom(NEW, cs).0;
            && v.state == (if v.config.Some? then Connected else Disconnected) && v.peerInfo.None?
            && (v.config.Some? ==> exists i: nat :: Opens(cs, i, v.config.value))
            && (v.config.None? <==> Closed(cs))
  {
    hide Opens, Closed;
    if cs == [] {
      ClosedEmpty();
    } else {
      var before, c := cs[..|cs| - 1], cs[|cs| - 1];
      ConfigStored(before);
      OpensStep(before, c);
      assert before + [c] == cs;
      var v := RunFrom(NEW, before).0;
      if v.config.Some? {
        var i: nat :| Opens(before, i, v.config.value);
        StillOpen(before, c, i, v.config.value);
      } else if c.Connect? {
        NotClosed(cs, |before|, c.config);
      }
    }
  }

  lemma ClosedEmpty()
    ensures Closed([])
  {
  }

  lemma NotClosed(cs: seq<Command>, i: nat, config: Config)
    requires Opens(cs, i, config)
    ensures !Closed(cs)
  {
  }

  lemma StillOpen(cs: seq<Command>, c: Command, i: nat, config: Config)
    requires Opens(cs, i, config)
    ensures !c.Disconnect? ==> Opens(cs + [c], i, config) && !Closed(cs + [c])
  {
    OpensStep(cs, c);
    if !c.Disconnect? { NotClosed(cs + [c], i, config); }
  }
}
