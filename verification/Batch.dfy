/** The batch parser behind the `do` subcommand: a flat list of tokens is cut into steps. A step ends
    where its arity says, or, for steps with flags, in front of the next step verb. */
module Batch {
  import opened Common

  datatype Step = Step(command: string, args: seq<string>)

  datatype BatchError =
    | UnknownCommand(token: string)
    | TooFewArguments(command: string)
    | ButtonNeedsValue
    | UnsupportedClickFlag(token: string)
    | ClickNeedsXY
    | ClipboardNeedsAction
    | UnknownClipboardAction(token: string)
    | FlagNeedsValue(token: string)
    | UnsupportedFlag(token: string)
    | MissingPositional
    | MissingFlag(flag: string)

  /** How the arguments of a step are delimited. `must` names a flag that has to be present. */
  datatype Shape =
    | Fixed(count: nat)
    | Click
    | Clipboard
    | Flagged(flags: seq<string>, need: nat, must: Option<string>)

  function ShapeOf(command: string): Option<Shape> {
    if command == "disconnect" || command == "status" || command == "displays" || command == "shell" then Some(Fixed(0))
    else if command == "type" then Some(Fixed(1))
    else if command == "scroll" then Some(Fixed(3))
    else if command == "move" then Some(Fixed(2))
    else if command == "drag" then Some(Fixed(4))
    else if command == "click" then Some(Click)
    else if command == "clipboard" then Some(Clipboard)
    else if command == "connect" then Some(Flagged(["--password", "--server", "--timeout"], 1, None))
    else if command == "exec" then Some(Flagged(["--command"], 0, Some("--command")))
    else if command == "key" then Some(Flagged(["--modifiers"], 1, None))
    else if command == "capture" then
      Some(Flagged(["--display", "--format", "--quality", "--region", "--timeout"], 0, None))
    else None
  }

  predicate IsVerb(token: string) {
    ShapeOf(token).Some?
  }

  predicate Dashed(token: string) {
    |token| >= 2 && token[0] == '-' && token[1] == '-'
  }

  predicate IsButton(token: string) {
    token == "--button"
  }

  predicate IsDouble(token: string) {
    token == "--double"
  }

  /** `flag_value(args, flag).is_some()`: the flag stands somewhere with a token after it. */
  predicate HasValue(args: seq<string>, flag: string) {
    exists i :: 0 <= i < |args| - 1 && args[i] == flag
  }

  type Length = Result<nat, BatchError>

  function Plus(k: nat, n: Length): Length {
    if n.Ok? then Ok(k + n.value) else n
  }

  // ----- What each token loop consumes -----

  /** How many of the tokens `ts` a flagged step takes, after `got` positional arguments. */
  function FlaggedLength(ts: seq<string>, flags: seq<string>, need: nat, got: nat): (n: Length)
    ensures n.Ok? ==> n.value <= |ts|
  {
    if ts == [] || (got >= need && IsVerb(ts[0])) then (if got < need then Err(MissingPositional) else Ok(0))
    else if ts[0] in flags then
      if |ts| < 2 then Err(FlagNeedsValue(ts[0])) else Plus(2, FlaggedLength(ts[2..], flags, need, got))
    else if Dashed(ts[0]) then Err(UnsupportedFlag(ts[0]))
    else Plus(1, FlaggedLength(ts[1..], flags, need, got + 1))
  }

  function ClickLength(ts: seq<string>, got: nat): (n: Length)
    ensures n.Ok? ==> n.value <= |ts|
  {
    if ts == [] || (got >= 2 && IsVerb(ts[0])) then (if got < 2 then Err(ClickNeedsXY) else Ok(0))
    else if IsButton(ts[0]) then
      if |ts| < 2 then Err(ButtonNeedsValue) else Plus(2, ClickLength(ts[2..], got))
    else if IsDouble(ts[0]) then Plus(1, ClickLength(ts[1..], got))
    else if Dashed(ts[0]) then Err(UnsupportedClickFlag(ts[0]))
    else Plus(1, ClickLength(ts[1..], got + 1))
  }

  function MustHave(ts: seq<string>, n: Length, must: Option<string>): Length
    requires n.Ok? ==> n.value <= |ts|
  {
    if n.Ok? && must.Some? && !HasValue(ts[..n.value], must.value) then Err(MissingFlag(must.value)) else n
  }

  function ClipboardLength(ts: seq<string>): (n: Length)
    ensures n.Ok? ==> n.value <= |ts|
  {
    if ts == [] then Err(ClipboardNeedsAction)
    else if ts[0] == "get" then Ok(1)
    else if ts[0] == "set" then
      Plus(1, MustHave(ts[1..], FlaggedLength(ts[1..], ["--text"], 0, 0), Some("--text")))
    else Err(UnknownClipboardAction(ts[0]))
  }

  /** How many tokens after its verb a step takes. */
  function ArgsLength(command: string, shape: Shape, ts: seq<string>): (n: Length)
    ensures n.Ok? ==> n.value <= |ts|
  {
    match shape
    case Fixed(count) => if |ts| < count then Err(TooFewArguments(command)) else Ok(count)
    case Click => ClickLength(ts, 0)
    case Clipboard => ClipboardLength(ts)
    case Flagged(flags, need, must) => MustHave(ts, FlaggedLength(ts, flags, need, 0), must)
  }

  function Parse(ts: seq<string>): Result<seq<Step>, BatchError>
    decreases |ts|
  {
    if ts == [] then Ok([])
    else if !IsVerb(ts[0]) then Err(UnknownCommand(ts[0]))
    else
      var n := ArgsLength(ts[0], ShapeOf(ts[0]).value, ts[1..]);
      if n.Err? then Err(n.error)
      else
        var rest := Parse(ts[1..][n.value..]);
        if rest.Err? then rest else Ok([Step(ts[0], ts[1..][..n.value])] + rest.value)
  }

  /** Steps already found, in front of what the rest of the tokens gives. */
  function Before(done: seq<Step>, rest: Result<seq<Step>, BatchError>): Result<seq<Step>, BatchError> {
    if rest.Ok? then Ok(done + rest.value) else rest
  }

  // ----- The grammar, without a token stream -----

  /** Arguments of a flagged step: known flags with their values, and positionals that are not flags and,
      once enough of them are there, not verbs. */
  predicate FlaggedArgs(args: seq<string>, flags: seq<string>, need: nat, got: nat) {
    if args == [] then got >= need
    else
      && !(got >= need && IsVerb(args[0]))
      && if args[0] in flags then |args| >= 2 && FlaggedArgs(args[2..], flags, need, got)
         else !Dashed(args[0]) && FlaggedArgs(args[1..], flags, need, got + 1)
  }

  predicate ClickArgs(args: seq<string>, got: nat) {
    if args == [] then got >= 2
    else
      && !(got >= 2 && IsVerb(args[0]))
      && if IsButton(args[0]) then |args| >= 2 && ClickArgs(args[2..], got)
         else if IsDouble(args[0]) then ClickArgs(args[1..], got)
         else !Dashed(args[0]) && ClickArgs(args[1..], got + 1)
  }

  predicate Fits(shape: Shape, args: seq<string>) {
    match shape
    case Fixed(count) => |args| == count
    case Click => ClickArgs(args, 0)
    case Clipboard =>
      || args == ["get"]
      || (args != [] && args[0] == "set" && FlaggedArgs(args[1..], ["--text"], 0, 0) && HasValue(args[1..], "--text"))
    case Flagged(flags, need, must) =>
      FlaggedArgs(args, flags, need, 0) && (must.Some? ==> HasValue(args, must.value))
  }

  predicate Valid(s: Step) {
    ShapeOf(s.command).Some? && Fits(ShapeOf(s.command).value, s.args)
  }

  function Flatten(steps: seq<Step>): seq<string> {
    if steps == [] then [] else [steps[0].command] + steps[0].args + Flatten(steps[1..])
  }

  /** What may follow a step: nothing, or the verb of the next one. */
  predicate Boundary(ts: seq<string>) {
    ts == [] || IsVerb(ts[0])
  }

  // ----- Each loop consumes exactly a grammatical argument list -----

  lemma {:induction false} FlaggedSound(ts: seq<string>, flags: seq<string>, need: nat, got: nat)
    requires FlaggedLength(ts, flags, need, got).Ok?
    ensures FlaggedArgs(ts[..FlaggedLength(ts, flags, need, got).value], flags, need, got)
  {
    hide IsVerb, Dashed;
    var n := FlaggedLength(ts, flags, need, got).value;
    if n > 0 {
      var k := if ts[0] in flags then 2 else 1;
      FlaggedSound(ts[k..], flags, need, if k == 2 then got else got + 1);
      assert ts[..n][k..] == ts[k..][..n - k];
    }
  }

  lemma {:induction false} FlaggedComplete(
    args: seq<string>, rest: seq<string>, flags: seq<string>, need: nat, got: nat)
    requires FlaggedArgs(args, flags, need, got) && Boundary(rest)
    ensures FlaggedLength(args + rest, flags, need, got) == Ok(|args|)
  {
    hide IsVerb, Dashed;
    if args == [] {
      assert args + rest == rest;
    } else {
      var k := if args[0] in flags then 2 else 1;
      FlaggedComplete(args[k..], rest, flags, need, if k == 2 then got else got + 1);
      assert (args + rest)[k..] == args[k..] + rest;
    }
  }

  lemma {:induction false} ClickSound(ts: seq<string>, got: nat)
    requires ClickLength(ts, got).Ok?
    ensures ClickArgs(ts[..ClickLength(ts, got).value], got)
  {
    hide IsVerb, Dashed, IsButton, IsDouble;
    var n := ClickLength(ts, got).value;
    if n > 0 {
      var k := if IsButton(ts[0]) then 2 else 1;
      ClickSound(ts[k..], if IsButton(ts[0]) || IsDouble(ts[0]) then got else got + 1);
      assert ts[..n][k..] == ts[k..][..n - k];
    }
  }

  lemma {:induction false} ClickComplete(args: seq<string>, rest: seq<string>, got: nat)
    requires ClickArgs(args, got) && Boundary(rest)
    ensures ClickLength(args + rest, got) == Ok(|args|)
  {
    hide IsVerb, Dashed, IsButton, IsDouble;
    if args == [] {
      assert args + rest == rest;
    } else {
      var k := if IsButton(args[0]) then 2 else 1;
      ClickComplete(args[k..], rest, if IsButton(args[0]) || IsDouble(args[0]) then got else got + 1);
      assert (args + rest)[k..] == args[k..] + rest;
    }
  }

  lemma ArgsSound(command: string, shape: Shape, ts: seq<string>)
    requires ArgsLength(command, shape, ts).Ok?
    ensures Fits(shape, ts[..ArgsLength(command, shape, ts).value])
  {
    hide FlaggedLength, ClickLength, FlaggedArgs, ClickArgs, HasValue;
    var n := ArgsLength(command, shape, ts).value;
    match shape
    case Fixed(_) =>
    case Click => ClickSound(ts, 0);
    case Clipboard =>
      if ts[0] == "set" {
        FlaggedSound(ts[1..], ["--text"], 0, 0);
        assert ts[..n][1..] == ts[1..][..n - 1];
      } else {
        assert ts[..1] == ["get"];
      }
    case Flagged(flags, need, _) => FlaggedSound(ts, flags, need, 0);
  }

  lemma ArgsComplete(command: string, shape: Shape, args: seq<string>, rest: seq<string>)
    requires Fits(shape, args) && Boundary(rest)
    ensures ArgsLength(command, shape, args + rest) == Ok(|args|)
  {
    hide FlaggedLength, ClickLength, FlaggedArgs, ClickArgs, HasValue, IsVerb;
    assert (args + rest)[..|args|] == args;
    match shape
    case Fixed(_) =>
    case Click => ClickComplete(args, rest, 0);
    case Clipboard =>
      if args != ["get"] {
        FlaggedComplete(args[1..], rest, ["--text"], 0, 0);
        assert (args + rest)[1..] == args[1..] + rest;
        assert (args[1..] + rest)[..|args| - 1] == args[1..];
      }
    case Flagged(flags, need, _) => FlaggedComplete(args, rest, flags, need, 0);
  }

  // ----- The parser accepts exactly the grammar, losslessly -----

  lemma {:induction false} ParseSound(ts: seq<string>)
    requires Parse(ts).Ok?
    ensures var steps := Parse(ts).value;
            && Flatten(steps) == ts
            && (forall s <- steps :: Valid(s))
            && Boundary(ts)
    decreases |ts|
  {
    hide ArgsLength, Fits, ShapeOf;
    if ts != [] {
      var after := ts[1..];
      var n := ArgsLength(ts[0], ShapeOf(ts[0]).value, after).value;
      ArgsSound(ts[0], ShapeOf(ts[0]).value, after);
      var rest := after[n..];
      ParseSound(rest);
      var steps := Parse(ts).value;
      assert steps[0] == Step(ts[0], after[..n]) && steps[1..] == Parse(rest).value;
      assert ts == [ts[0]] + after[..n] + rest;
      assert forall s <- steps :: s == steps[0] || s in steps[1..];
    }
  }

  lemma FlattenStart(steps: seq<Step>)
    requires forall s <- steps :: Valid(s)
    ensures Boundary(Flatten(steps))
  {
    hide ShapeOf, Fits;
    if steps != [] { assert steps[0] in steps; }
  }

  lemma ParseComplete(steps: seq<Step>)
    requires forall s <- steps :: Valid(s)
    ensures Parse(Flatten(steps)) == Ok(steps)
  {
    ParseAfterSteps(steps, []);
    assert Flatten(steps) + [] == Flatten(steps) && steps + [] == steps;
  }

  lemma ParseStep(all: seq<string>, s: Step, after: seq<string>, rest: seq<string>)
    requires after == s.args + rest && all == [s.command] + after
    requires ShapeOf(s.command).Some?
    requires ArgsLength(s.command, ShapeOf(s.command).value, after) == Ok(|s.args|)
    ensures Parse(all) == Before([s], Parse(rest))
  {
    hide ShapeOf, ArgsLength;
    assert all[1..] == after;
    assert after[..|s.args|] == s.args && after[|s.args|..] == rest;
  }

  /** Parsing succeeds with `steps` exactly when they are grammatical and their verbs and arguments, in
      order, are the tokens: nothing is dropped, reordered, invented or read two ways. */
  lemma ParseExact(ts: seq<string>, steps: seq<Step>)
    ensures Parse(ts) == Ok(steps) <==> Flatten(steps) == ts && forall s <- steps :: Valid(s)
  {
    hide Parse, Flatten, Valid;
    if Parse(ts) == Ok(steps) { ParseSound(ts); }
    if Flatten(steps) == ts && forall s <- steps :: Valid(s) { ParseComplete(steps); }
  }

  // ----- Parsing is compositional -----

  lemma {:induction false} ParseAfterSteps(steps: seq<Step>, b: seq<string>)
    requires (forall s <- steps :: Valid(s)) && Boundary(b)
    ensures Parse(Flatten(steps) + b) == Before(steps, Parse(b))
  {
    hide Boundary, ArgsLength, ShapeOf, Fits, Parse;
    if steps == [] {
      assert Flatten(steps) + b == b;
      assert Parse(b).Ok? ==> [] + Parse(b).value == Parse(b).value;
    } else {
      hide Flatten;
      var s, rest := steps[0], Flatten(steps[1..]) + b;
      var after := s.args + rest;
      assert s in steps;
      FlattenStart(steps[1..]);
      BoundaryConcat(Flatten(steps[1..]), b);
      ArgsComplete(s.command, ShapeOf(s.command).value, s.args, rest);
      ParseAfterSteps(steps[1..], b);
      FlattenFirst(steps, b, rest, after);
      ParseStep(Flatten(steps) + b, s, after, rest);
      BeforeFirst(steps, Parse(b));
    }
  }

  lemma FlattenFirst(steps: seq<Step>, b: seq<string>, rest: seq<string>, after: seq<string>)
    requires steps != [] && rest == Flatten(steps[1..]) + b && after == steps[0].args + rest
    ensures Flatten(steps) + b == [steps[0].command] + after
  {
  }

  lemma BeforeFirst(steps: seq<Step>, rest: Result<seq<Step>, BatchError>)
    requires steps != []
    ensures Before([steps[0]], Before(steps[1..], rest)) == Before(steps, rest)
  {
    if rest.Ok? { assert [steps[0]] + (steps[1..] + rest.value) == steps + rest.value; }
  }

  lemma BoundaryConcat(a: seq<string>, b: seq<string>)
    requires Boundary(a) && Boundary(b)
    ensures Boundary(a + b)
  {
    if a == [] { assert a + b == b; }
  }

  /** If `a` parses and `b` is empty or starts with a verb, then parsing `a` followed by `b` gives the
      steps of `a` followed by those of `b`, or the error of `b`. */
  lemma ParseComposes(a: seq<string>, b: seq<string>)
    requires Parse(a).Ok? && Boundary(b)
    ensures Parse(a + b) == Before(Parse(a).value, Parse(b))
  {
    hide Parse, Flatten, Valid, Boundary;
    ParseSound(a);
    ParseAfterSteps(Parse(a).value, b);
  }

  /** The first half has to parse: a verb that an unfinished step can still take is taken as its argument. */
  lemma UnfinishedStepSwallowsVerb()
    ensures Parse(["type"]).Err? && Parse(["status"]).Ok?
    ensures Parse(["type"] + ["status"]) == Ok([Step("type", ["status"])])
  {
    var status := Step("status", []);
    var typed := Step("type", ["status"]);
    assert Flatten([status]) == ["status"];
    assert Flatten([typed]) == ["type", "status"];
    ParseExact(["status"], [status]);
    ParseExact(["type", "status"], [typed]);
    assert ["type"] + ["status"] == ["type", "status"];
  }

  // ----- What each verb takes, spelled out -----

  predicate VerbName(token: string) {
    || token == "connect" || token == "disconnect" || token == "shell" || token == "exec" || token == "clipboard"
    || token == "status" || token == "displays" || token == "capture" || token == "type" || token == "key"
    || token == "click" || token == "scroll" || token == "move" || token == "drag"
  }

  /** The verbs are these fourteen. */
  lemma VerbsExactly(token: string)
    ensures IsVerb(token) <==> VerbName(token)
    ensures !VerbName(token) ==> forall rest: seq<string> :: Parse([token] + rest) == Err(UnknownCommand(token))
  {
    forall rest: seq<string> ensures ([token] + rest)[0] == token {}
  }

  predicate FixedVerb(command: string, n: nat) {
    || (n == 0 && (command == "disconnect" || command == "status" || command == "displays" || command == "shell"))
    || (n == 1 && command == "type")
    || (n == 2 && command == "move")
    || (n == 3 && command == "scroll")
    || (n == 4 && command == "drag")
  }

  /** These verbs take so many tokens, whatever the tokens are, and fewer are an error. */
  lemma FixedVerbTakes(command: string, n: nat, args: seq<string>, rest: seq<string>)
    requires FixedVerb(command, n)
    ensures |args| == n ==> Parse([command] + (args + rest)) == Before([Step(command, args)], Parse(rest))
    ensures |args| < n ==> Parse([command] + args) == Err(TooFewArguments(command))
  {
    hide Parse;
    assert ShapeOf(command) == Some(Fixed(n));
    hide ShapeOf;
    if |args| == n { ParseStep([command] + (args + rest), Step(command, args), args + rest, rest); }
    if |args| < n { ParseRefuses(command, args, TooFewArguments(command)); }
  }

  lemma ParseRefuses(command: string, after: seq<string>, error: BatchError)
    requires ShapeOf(command).Some? && ArgsLength(command, ShapeOf(command).value, after) == Err(error)
    ensures Parse([command] + after) == Err(error)
  {
    hide ShapeOf, ArgsLength;
    assert ([command] + after)[1..] == after;
  }

  /** An argument of a step: a positional token, a flag with its value, or a flag alone. */
  datatype Item = Pos(token: string) | Opt(flag: string, value: string) | Lone(flag: string)

  function Render(items: seq<Item>): seq<string> {
    if items == [] then [] else Tokens(items[0]) + Render(items[1..])
  }

  function CountPos(items: seq<Item>): nat {
    if items == [] then 0 else (if items[0].Pos? then 1 else 0) + CountPos(items[1..])
  }

  /** Only these flags, no positional that looks like a flag, and none that is a verb once `need` of them are
      there; `got` came before. */
  predicate ItemsOk(items: seq<Item>, valued: seq<string>, lone: seq<string>, need: nat, got: nat) {
    items == [] || (
      && match items[0] {
           case Pos(t) => !Dashed(t) && (got >= need ==> !VerbName(t))
           case Opt(f, _) => f in valued
           case Lone(f) => f in lone
         }
      && ItemsOk(items[1..], valued, lone, need, if items[0].Pos? then got + 1 else got))
  }

  predicate AllDashed(flags: seq<string>) {
    forall f <- flags :: Dashed(f)
  }

  lemma DashedIsNoVerb(token: string)
    requires Dashed(token)
    ensures !IsVerb(token)
  {
  }

  function Tokens(item: Item): seq<string> {
    match item case Pos(t) => [t] case Opt(f, v) => [f, v] case Lone(f) => [f]
  }

  lemma RenderFirst(items: seq<Item>, tail: seq<string>)
    requires items != []
    ensures Render(items) + tail == Tokens(items[0]) + (Render(items[1..]) + tail)
    ensures |Render(items)| == |Tokens(items[0])| + |Render(items[1..])|
  {
    ConcatAssociative(Tokens(items[0]), Render(items[1..]), tail);
  }

  lemma FlaggedOnItem(item: Item, more: seq<string>, flags: seq<string>, need: nat, got: nat)
    requires match item {
               case Pos(t) => !Dashed(t) && t !in flags && !(got >= need && IsVerb(t))
               case Opt(f, _) => f in flags && !IsVerb(f)
               case Lone(_) => false
             }
    ensures FlaggedLength(Tokens(item) + more, flags, need, got)
         == Plus(|Tokens(item)|, FlaggedLength(more, flags, need, if item.Pos? then got + 1 else got))
  {
    hide IsVerb, Dashed;
    assert (Tokens(item) + more)[|Tokens(item)|..] == more;
  }

  lemma ClickOnItem(item: Item, more: seq<string>, got: nat)
    requires match item {
               case Pos(t) => !Dashed(t) && !IsButton(t) && !IsDouble(t) && !(got >= 2 && IsVerb(t))
               case Opt(f, _) => IsButton(f) && !IsVerb(f)
               case Lone(f) => IsDouble(f) && !IsButton(f) && !IsVerb(f)
             }
    ensures ClickLength(Tokens(item) + more, got)
         == Plus(|Tokens(item)|, ClickLength(more, if item.Pos? then got + 1 else got))
  {
    hide IsVerb, Dashed, IsButton, IsDouble;
    assert (Tokens(item) + more)[|Tokens(item)|..] == more;
  }

  lemma RenderNothing(tail: seq<string>)
    ensures Render([]) + tail == tail && Render([]) == []
  {
  }

  /** The flagged loop passes over such items. */
  lemma {:induction false} FlaggedOverItems(
    items: seq<Item>, tail: seq<string>, flags: seq<string>, need: nat, got: nat)
    requires ItemsOk(items, flags, [], need, got) && AllDashed(flags)
    ensures FlaggedLength(Render(items) + tail, flags, need, got)
         == Plus(|Render(items)|, FlaggedLength(tail, flags, need, got + CountPos(items)))
  {
    hide IsVerb, Dashed, VerbName, FlaggedLength, Render, Tokens;
    if items == [] {
      RenderNothing(tail);
    } else {
      var item := items[0];
      if item.Pos? { VerbsExactly(item.token); } else { DashedIsNoVerb(item.flag); }
      RenderFirst(items, tail);
      FlaggedOnItem(item, Render(items[1..]) + tail, flags, need, got);
      FlaggedOverItems(items[1..], tail, flags, need, if item.Pos? then got + 1 else got);
    }
  }

  lemma ClickFlag(item: Item, got: nat)
    requires ItemsOk([item], ["--button"], ["--double"], 2, got)
    ensures match item {
              case Pos(t) => !Dashed(t) && !IsButton(t) && !IsDouble(t) && !(got >= 2 && IsVerb(t))
              case Opt(f, _) => IsButton(f) && !IsVerb(f)
              case Lone(f) => IsDouble(f) && !IsButton(f) && !IsVerb(f)
            }
  {
    if item.Pos? {
      VerbsExactly(item.token);
      hide IsVerb, VerbName;
      ButtonAndDoubleAreDashed(item.token);
    } else {
      hide IsVerb, VerbName;
      DashedIsNoVerb(item.flag);
    }
  }

  /** The first item, and the rest. */
  lemma ItemsSplit(items: seq<Item>, valued: seq<string>, lone: seq<string>, need: nat, got: nat)
    requires items != [] && ItemsOk(items, valued, lone, need, got)
    ensures ItemsOk([items[0]], valued, lone, need, got)
    ensures ItemsOk(items[1..], valued, lone, need, if items[0].Pos? then got + 1 else got)
    ensures CountPos(items) == (if items[0].Pos? then 1 else 0) + CountPos(items[1..])
  {
    hide Dashed, VerbName;
    assert [items[0]][1..] == [];
  }

  /** The click loop passes over such items. */
  lemma {:induction false} ClickOverItems(items: seq<Item>, tail: seq<string>, got: nat)
    requires ItemsOk(items, ["--button"], ["--double"], 2, got)
    ensures ClickLength(Render(items) + tail, got)
         == Plus(|Render(items)|, ClickLength(tail, got + CountPos(items)))
  {
    hide IsVerb, Dashed, VerbName, IsButton, IsDouble, ClickLength, Render, Tokens, ItemsOk;
    if items == [] {
      RenderNothing(tail);
    } else {
      var item := items[0];
      ItemsSplit(items, ["--button"], ["--double"], 2, got);
      ClickFlag(item, got);
      RenderFirst(items, tail);
      ClickOnItem(item, Render(items[1..]) + tail, got);
      hide CountPos;
      ClickOverItems(items[1..], tail, if item.Pos? then got + 1 else got);
    }
  }

  lemma ButtonAndDoubleAreDashed(t: string)
    ensures IsButton(t) || IsDouble(t) ==> Dashed(t)
  {
  }

  /** The verbs with flags: which flags take a value, how many positionals are needed, which flag is required. */
  predicate FlagVerb(command: string, valued: seq<string>, need: nat, must: Option<string>) {
    || (command == "connect" && valued == ["--password", "--server", "--timeout"] && need == 1 && must == None)
    || (command == "exec" && valued == ["--command"] && need == 0 && must == Some("--command"))
    || (command == "key" && valued == ["--modifiers"] && need == 1 && must == None)
    || (command == "capture" && valued == ["--display", "--format", "--quality", "--region", "--timeout"]
        && need == 0 && must == None)
  }

  lemma FlagVerbShape(command: string, valued: seq<string>, need: nat, must: Option<string>)
    requires FlagVerb(command, valued, need, must)
    ensures ShapeOf(command) == Some(Flagged(valued, need, must)) && AllDashed(valued)
  {
  }

  predicate HasOpt(items: seq<Item>, flag: string) {
    exists i :: 0 <= i < |items| && items[i].Opt? && items[i].flag == flag
  }

  lemma {:induction false} OptHasValue(items: seq<Item>, flag: string)
    requires HasOpt(items, flag)
    ensures HasValue(Render(items), flag)
  {
    var i :| 0 <= i < |items| && items[i].Opt? && items[i].flag == flag;
    var args := Render(items);
    if i == 0 {
      assert args[0] == flag && |args| >= 2;
    } else {
      var rest := Render(items[1..]);
      assert items[1..][i - 1] == items[i];
      OptHasValue(items[1..], flag);
      var k :| 0 <= k < |rest| - 1 && rest[k] == flag;
      var n := |args| - |rest|;
      assert args[n + k] == rest[k];
    }
  }

  /** Without its only flag, such items never show it. */
  lemma {:induction false} NoOptNoValue(items: seq<Item>, flag: string, need: nat, got: nat)
    requires ItemsOk(items, [flag], [], need, got) && Dashed(flag) && !HasOpt(items, flag)
    ensures flag !in Render(items)
  {
    hide Dashed, VerbName;
    if items != [] {
      assert items[0].Pos?;
      assert forall i :: 0 <= i < |items| - 1 ==> items[1..][i] == items[i + 1];
      NoOptNoValue(items[1..], flag, need, got + 1);
    }
  }

  /** A step with flags takes its items up to the next verb. */
  lemma FlagVerbTakes(
    command: string, valued: seq<string>, need: nat, must: Option<string>, items: seq<Item>, rest: seq<string>)
    requires FlagVerb(command, valued, need, must) && ItemsOk(items, valued, [], need, 0)
    requires CountPos(items) >= need && (must.Some? ==> HasOpt(items, must.value))
    requires rest == [] || VerbName(rest[0])
    ensures Parse([command] + (Render(items) + rest)) == Before([Step(command, Render(items))], Parse(rest))
  {
    hide Parse, FlagVerb, HasOpt, HasValue, ItemsOk, VerbName;
    FlagVerbShape(command, valued, need, must);
    hide ShapeOf;
    var args := Render(items);
    FlaggedToBoundary(items, rest, valued, need);
    hide FlaggedLength;
    if must.Some? { OptHasValue(items, must.value); }
    assert (args + rest)[..|args|] == args;
    ParseStep([command] + (args + rest), Step(command, args), args + rest, rest);
  }

  /** The flagged loop at a dashed token behind the items. */
  lemma FlaggedAtFlag(items: seq<Item>, f: string, rest: seq<string>, flags: seq<string>, need: nat)
    requires ItemsOk(items, flags, [], need, 0) && AllDashed(flags) && Dashed(f)
    ensures f !in flags ==> FlaggedLength(Render(items) + ([f] + rest), flags, need, 0) == Err(UnsupportedFlag(f))
    ensures f in flags ==> FlaggedLength(Render(items) + [f], flags, need, 0) == Err(FlagNeedsValue(f))
  {
    DashedIsNoVerb(f);
    hide ItemsOk, IsVerb, Dashed, VerbName, Render, CountPos, AllDashed;
    FlaggedOverItems(items, [f] + rest, flags, need, 0);
    FlaggedOverItems(items, [f], flags, need, 0);
  }

  /** What such a step refuses: an unknown flag, and a flag without its value. */
  lemma FlagVerbRefuses(
    command: string, valued: seq<string>, need: nat, must: Option<string>, items: seq<Item>,
    f: string, rest: seq<string>)
    requires FlagVerb(command, valued, need, must) && ItemsOk(items, valued, [], need, 0) && Dashed(f)
    ensures f !in valued ==> Parse([command] + (Render(items) + ([f] + rest))) == Err(UnsupportedFlag(f))
    ensures f in valued ==> Parse([command] + (Render(items) + [f])) == Err(FlagNeedsValue(f))
  {
    hide Parse, ItemsOk, VerbName, FlagVerb, ShapeOf, FlaggedLength, Render, AllDashed, Dashed, HasValue;
    FlagVerbShape(command, valued, need, must);
    FlaggedAtFlag(items, f, rest, valued, need);
    if f !in valued {
      ParseRefuses(command, Render(items) + ([f] + rest), UnsupportedFlag(f));
    } else {
      ParseRefuses(command, Render(items) + [f], FlagNeedsValue(f));
    }
  }

  /** Such a step refuses to end with too few positionals, or without its required flag. */
  lemma FlagVerbNeeds(command: string, valued: seq<string>, need: nat, must: Option<string>, items: seq<Item>)
    requires FlagVerb(command, valued, need, must) && ItemsOk(items, valued, [], need, 0)
    ensures CountPos(items) < need ==> Parse([command] + Render(items)) == Err(MissingPositional)
    ensures CountPos(items) >= need && must.Some? && !HasOpt(items, must.value) ==>
              Parse([command] + Render(items)) == Err(MissingFlag(must.value))
  {
    hide Parse, ItemsOk, VerbName, FlagVerb, ShapeOf, FlaggedLength, Render, AllDashed, Dashed, HasValue, HasOpt;
    var args := Render(items);
    FlagVerbShape(command, valued, need, must);
    assert args + [] == args && args[..|args|] == args;
    if CountPos(items) < need {
      FlaggedShort(items, valued, need);
      ParseRefuses(command, args, MissingPositional);
    } else if must.Some? && !HasOpt(items, must.value) {
      OnlyFlag(command, valued, need, must);
      NoOptNoValue(items, must.value, need, 0);
      NoValue(args, must.value);
      FlaggedToBoundary(items, [], valued, need);
      ParseRefuses(command, args, MissingFlag(must.value));
    }
  }

  lemma FlaggedShort(items: seq<Item>, flags: seq<string>, need: nat)
    requires ItemsOk(items, flags, [], need, 0) && AllDashed(flags) && CountPos(items) < need
    ensures FlaggedLength(Render(items), flags, need, 0) == Err(MissingPositional)
  {
    hide ItemsOk, VerbName, Render, AllDashed, CountPos, IsVerb, Dashed;
    FlaggedOverItems(items, [], flags, need, 0);
    assert Render(items) + [] == Render(items);
  }

  lemma OnlyFlag(command: string, valued: seq<string>, need: nat, must: Option<string>)
    requires FlagVerb(command, valued, need, must) && must.Some?
    ensures valued == [must.value] && Dashed(must.value)
  {
  }

  /** A click takes two or more positionals, `--button` with a value and `--double` alone. */
  lemma ClickTakes(items: seq<Item>, rest: seq<string>)
    requires ItemsOk(items, ["--button"], ["--double"], 2, 0) && CountPos(items) >= 2
    requires rest == [] || VerbName(rest[0])
    ensures Parse(["click"] + (Render(items) + rest)) == Before([Step("click", Render(items))], Parse(rest))
  {
    hide Parse, ItemsOk, VerbName;
    assert ShapeOf("click") == Some(Click);
    hide ShapeOf;
    var args := Render(items);
    ClickOverItems(items, rest, 0);
    if rest != [] { VerbsExactly(rest[0]); }
    ParseStep(["click"] + (args + rest), Step("click", args), args + rest, rest);
  }

  /** What a click refuses: another flag, `--button` without a value, fewer than two positionals. */
  lemma ClickRefuses(items: seq<Item>, f: string, rest: seq<string>)
    requires ItemsOk(items, ["--button"], ["--double"], 2, 0) && Dashed(f)
    ensures f != "--button" && f != "--double" ==>
              Parse(["click"] + (Render(items) + ([f] + rest))) == Err(UnsupportedClickFlag(f))
    ensures Parse(["click"] + (Render(items) + ["--button"])) == Err(ButtonNeedsValue)
    ensures CountPos(items) < 2 ==> Parse(["click"] + (Render(items) + [])) == Err(ClickNeedsXY)
  {
    hide Parse, ItemsOk, VerbName;
    assert ShapeOf("click") == Some(Click);
    hide ShapeOf;
    DashedIsNoVerb(f);
    DashedIsNoVerb("--button");
    hide Dashed, IsVerb;
    var args := Render(items);
    ClickOverItems(items, [f] + rest, 0);
    ClickOverItems(items, ["--button"], 0);
    ClickOverItems(items, [], 0);
    if f != "--button" && f != "--double" {
      ParseRefuses("click", args + ([f] + rest), UnsupportedClickFlag(f));
    }
    ParseRefuses("click", args + ["--button"], ButtonNeedsValue);
    if CountPos(items) < 2 { ParseRefuses("click", args + [], ClickNeedsXY); }
  }

  /** `clipboard get` takes nothing more; `clipboard set` takes `--text` with a value and needs it; any other
      action, or none, is an error. */
  lemma ClipboardTakes(items: seq<Item>, rest: seq<string>, action: string)
    requires ItemsOk(items, ["--text"], [], 0, 0) && (rest == [] || VerbName(rest[0]))
    ensures Parse(["clipboard"] + (["get"] + rest)) == Before([Step("clipboard", ["get"])], Parse(rest))
    ensures HasOpt(items, "--text") ==>
              Parse(["clipboard"] + (["set"] + Render(items) + rest))
              == Before([Step("clipboard", ["set"] + Render(items))], Parse(rest))
    ensures !HasOpt(items, "--text") ==>
              Parse(["clipboard"] + (["set"] + Render(items))) == Err(MissingFlag("--text"))
    ensures Parse(["clipboard"] + []) == Err(ClipboardNeedsAction)
    ensures action != "get" && action != "set" ==>
              Parse(["clipboard"] + ([action] + rest)) == Err(UnknownClipboardAction(action))
  {
    hide Parse, ItemsOk, VerbName, HasOpt, HasValue;
    assert ShapeOf("clipboard") == Some(Clipboard);
    hide ShapeOf;
    ParseStep(["clipboard"] + (["get"] + rest), Step("clipboard", ["get"]), ["get"] + rest, rest);
    ParseRefuses("clipboard", [], ClipboardNeedsAction);
    if action != "get" && action != "set" {
      ParseRefuses("clipboard", [action] + rest, UnknownClipboardAction(action));
    }
    ClipboardSetTakes(items, rest);
  }

  /** The arguments of `clipboard set`, as the parser measures them. */
  lemma ClipboardSetLength(args: seq<string>, rest: seq<string>)
    requires FlaggedLength(args + rest, ["--text"], 0, 0) == Ok(|args|)
    ensures ArgsLength("clipboard", Clipboard, ["set"] + args + rest)
         == if HasValue(args, "--text") then Ok(1 + |args|) else Err(MissingFlag("--text"))
  {
    hide FlaggedLength, HasValue;
    assert (["set"] + args + rest)[1..] == args + rest && (args + rest)[..|args|] == args;
  }

  lemma FlaggedToBoundary(items: seq<Item>, rest: seq<string>, flags: seq<string>, need: nat)
    requires ItemsOk(items, flags, [], need, 0) && AllDashed(flags) && CountPos(items) >= need
    requires rest == [] || VerbName(rest[0])
    ensures FlaggedLength(Render(items) + rest, flags, need, 0) == Ok(|Render(items)|)
  {
    hide ItemsOk, VerbName, Render, AllDashed, CountPos;
    FlaggedOverItems(items, rest, flags, need, 0);
    if rest != [] { VerbsExactly(rest[0]); }
    hide IsVerb, Dashed;
    assert FlaggedLength(rest, flags, need, CountPos(items)) == Ok(0);
  }

  lemma ClipboardSetTakes(items: seq<Item>, rest: seq<string>)
    requires ItemsOk(items, ["--text"], [], 0, 0) && (rest == [] || VerbName(rest[0]))
    ensures HasOpt(items, "--text") ==>
              Parse(["clipboard"] + (["set"] + Render(items) + rest))
              == Before([Step("clipboard", ["set"] + Render(items))], Parse(rest))
    ensures !HasOpt(items, "--text") ==>
              Parse(["clipboard"] + (["set"] + Render(items))) == Err(MissingFlag("--text"))
  {
    hide Parse, ItemsOk, VerbName, HasOpt, HasValue, ShapeOf, ArgsLength, Render, FlaggedLength, AllDashed, Dashed;
    ClipboardWords();
    var args := Render(items);
    if HasOpt(items, "--text") {
      OptHasValue(items, "--text");
      FlaggedToBoundary(items, rest, ["--text"], 0);
      ClipboardSetLength(args, rest);
      var after := ["set"] + args + rest;
      ParseStep(["clipboard"] + after, Step("clipboard", ["set"] + args), after, rest);
    } else {
      NoOptNoValue(items, "--text", 0, 0);
      NoValue(args, "--text");
      FlaggedToBoundary(items, [], ["--text"], 0);
      ClipboardSetLength(args, []);
      assert ["set"] + args + [] == ["set"] + args;
      ParseRefuses("clipboard", ["set"] + args, MissingFlag("--text"));
    }
  }

  lemma ClipboardWords()
    ensures ShapeOf("clipboard") == Some(Clipboard) && AllDashed(["--text"]) && Dashed("--text")
  {
  }

  lemma NoValue(args: seq<string>, flag: string)
    requires flag !in args
    ensures !HasValue(args, flag)
  {
  }

  // ----- The loops of the source -----

  /** One turn of the flagged loop, by position. */
  lemma FlaggedAt(tokens: seq<string>, i: nat, flags: seq<string>, need: nat, got: nat)
    requires i <= |tokens|
    ensures FlaggedLength(tokens[i..], flags, need, got) ==
            if i == |tokens| || (got >= need && IsVerb(tokens[i])) then
              (if got < need then Err(MissingPositional) else Ok(0))
            else if tokens[i] in flags then
              if i + 1 >= |tokens| then Err(FlagNeedsValue(tokens[i]))
              else Plus(2, FlaggedLength(tokens[i + 2..], flags, need, got))
            else if Dashed(tokens[i]) then Err(UnsupportedFlag(tokens[i]))
            else Plus(1, FlaggedLength(tokens[i + 1..], flags, need, got + 1))
  {
    hide IsVerb, Dashed;
    assert i + 2 <= |tokens| ==> tokens[i..][2..] == tokens[i + 2..];
    assert i + 1 <= |tokens| ==> tokens[i..][1..] == tokens[i + 1..];
  }

  /** One turn of the click loop, by position. */
  lemma ClickAt(tokens: seq<string>, i: nat, got: nat)
    requires i <= |tokens|
    ensures ClickLength(tokens[i..], got) ==
            if i == |tokens| || (got >= 2 && IsVerb(tokens[i])) then (if got < 2 then Err(ClickNeedsXY) else Ok(0))
            else if IsButton(tokens[i]) then
              if i + 1 >= |tokens| then Err(ButtonNeedsValue) else Plus(2, ClickLength(tokens[i + 2..], got))
            else if IsDouble(tokens[i]) then Plus(1, ClickLength(tokens[i + 1..], got))
            else if Dashed(tokens[i]) then Err(UnsupportedClickFlag(tokens[i]))
            else Plus(1, ClickLength(tokens[i + 1..], got + 1))
  {
    hide IsVerb, Dashed, IsButton, IsDouble;
    assert i + 2 <= |tokens| ==> tokens[i..][2..] == tokens[i + 2..];
    assert i + 1 <= |tokens| ==> tokens[i..][1..] == tokens[i + 1..];
  }

  method ParseFlaggedStep(tokens: seq<string>, start: nat, flags: seq<string>, need: nat)
    returns (r: Result<(seq<string>, nat), BatchError>)
    requires start <= |tokens|
    ensures var n := FlaggedLength(tokens[start..], flags, need, 0);
            r == if n.Ok? then Ok((tokens[start..][..n.value], start + n.value)) else Err(n.error)
  {
    hide IsVerb, Dashed, FlaggedLength;
    var index, args, positional := start, [], 0;
    while index < |tokens|
      invariant start <= index <= |tokens|
      invariant args == tokens[start..index]
      invariant FlaggedLength(tokens[start..], flags, need, 0)
             == Plus(index - start, FlaggedLength(tokens[index..], flags, need, positional))
    {
      FlaggedAt(tokens, index, flags, need, positional);
      SliceExtends(tokens, start, index);
      var token := tokens[index];
      if positional >= need && IsVerb(token) { break; }
      if token in flags {
        if index + 1 >= |tokens| { return Err(FlagNeedsValue(token)); }
        args := args + [token, tokens[index + 1]];
        index := index + 2;
        continue;
      }
      if Dashed(token) { return Err(UnsupportedFlag(token)); }
      args := args + [token];
      positional := positional + 1;
      index := index + 1;
    }
    FlaggedAt(tokens, index, flags, need, positional);
    if positional < need { return Err(MissingPositional); }
    SliceExtends(tokens, start, index);
    return Ok((args, index));
  }

  lemma PlusTwice(a: nat, b: nat, n: Length)
    ensures Plus(a, Plus(b, n)) == Plus(a + b, n)
  {
  }

  method ParseClickStep(tokens: seq<string>, start: nat) returns (r: Result<(seq<string>, nat), BatchError>)
    requires start <= |tokens|
    ensures var n := ClickLength(tokens[start..], 0);
            r == if n.Ok? then Ok((tokens[start..][..n.value], start + n.value)) else Err(n.error)
  {
    hide IsVerb, Dashed, IsButton, IsDouble, ClickLength;
    var index, args, positional := start, [], 0;
    ghost var whole := ClickLength(tokens[start..], 0);
    while index < |tokens|
      invariant start <= index <= |tokens|
      invariant args == tokens[start..index]
      invariant whole == Plus(index - start, ClickLength(tokens[index..], positional))
    {
      ClickAt(tokens, index, positional);
      SliceExtends(tokens, start, index);
      var token := tokens[index];
      if positional >= 2 && IsVerb(token) { break; }
      if IsButton(token) {
        if index + 1 >= |tokens| { return Err(ButtonNeedsValue); }
        PlusTwice(index - start, 2, ClickLength(tokens[index + 2..], positional));
        args := args + [token, tokens[index + 1]];
        index := index + 2;
        continue;
      }
      if IsDouble(token) {
        PlusTwice(index - start, 1, ClickLength(tokens[index + 1..], positional));
        args := args + [token];
        index := index + 1;
        continue;
      }
      if Dashed(token) { return Err(UnsupportedClickFlag(token)); }
      PlusTwice(index - start, 1, ClickLength(tokens[index + 1..], positional + 1));
      args := args + [token];
      positional := positional + 1;
      index := index + 1;
      if positional >= 2 && index < |tokens| && IsVerb(tokens[index]) { break; }
    }
    ClickAt(tokens, index, positional);
    if positional < 2 { return Err(ClickNeedsXY); }
    SliceExtends(tokens, start, index);
    return Ok((args, index));
  }

  method ParseClipboardStep(tokens: seq<string>, start: nat) returns (r: Result<(seq<string>, nat), BatchError>)
    requires start <= |tokens|
    ensures var n := ClipboardLength(tokens[start..]);
            r == if n.Ok? then Ok((tokens[start..][..n.value], start + n.value)) else Err(n.error)
  {
    hide FlaggedLength, HasValue;
    if start >= |tokens| { return Err(ClipboardNeedsAction); }
    var action := tokens[start];
    assert tokens[start..][1..] == tokens[start + 1..];
    if action == "get" {
      assert tokens[start..][..1] == [action];
      return Ok(([action], start + 1));
    } else if action == "set" {
      var parsed := ParseFlaggedStep(tokens, start + 1, ["--text"], 0);
      if parsed.Err? { return Err(parsed.error); }
      var (args, next) := parsed.value;
      if !HasValue(args, "--text") { return Err(MissingFlag("--text")); }
      assert tokens[start..][..next - start] == [action] + args;
      return Ok(([action] + args, next));
    }
    return Err(UnknownClipboardAction(action));
  }

  method ParseArgs(tokens: seq<string>, start: nat, command: string, shape: Shape)
    returns (r: Result<(seq<string>, nat), BatchError>)
    requires start <= |tokens|
    ensures var n := ArgsLength(command, shape, tokens[start..]);
            r == if n.Ok? then Ok((tokens[start..][..n.value], start + n.value)) else Err(n.error)
  {
    hide FlaggedLength, ClickLength, ClipboardLength, HasValue;
    match shape
    case Fixed(count) =>
      if start + count > |tokens| { return Err(TooFewArguments(command)); }
      return Ok((tokens[start..][..count], start + count));
    case Click =>
      r := ParseClickStep(tokens, start);
    case Clipboard =>
      r := ParseClipboardStep(tokens, start);
    case Flagged(flags, need, must) =>
      r := ParseFlaggedStep(tokens, start, flags, need);
      if r.Ok? && must.Some? && !HasValue(r.value.0, must.value) { return Err(MissingFlag(must.value)); }
  }

  method ParseBatchSteps(tokens: seq<string>) returns (r: Result<seq<Step>, BatchError>)
    ensures r == Parse(tokens)
  {
    hide ArgsLength, ShapeOf;
    var index, steps := 0, [];
    assert tokens[0..] == tokens;
    assert Parse(tokens).Ok? ==> [] + Parse(tokens).value == Parse(tokens).value;
    while index < |tokens|
      invariant index <= |tokens|
      invariant Parse(tokens) == Before(steps, Parse(tokens[index..]))
    {
      var command := tokens[index];
      if !IsVerb(command) { return Err(UnknownCommand(command)); }
      assert tokens[index..][1..] == tokens[index + 1..];
      var parsed := ParseArgs(tokens, index + 1, command, ShapeOf(command).value);
      if parsed.Err? { return Err(parsed.error); }
      var (args, next) := parsed.value;
      assert tokens[index + 1..][next - index - 1..] == tokens[next..];
      ghost var rest := Parse(tokens[next..]);
      assert Before(steps, Before([Step(command, args)], rest)) == Before(steps + [Step(command, args)], rest) by {
        if rest.Ok? { ConcatAssociative(steps, [Step(command, args)], rest.value); }
      }
      steps := steps + [Step(command, args)];
      index := next;
    }
    assert tokens[index..] == [];
    assert steps + [] == steps;
    return Ok(steps);
  }

  // ----- Reading the click coordinates back out of the arguments -----

  /** What a token of a click step is. */
  datatype Role = Flag | FlagValue | Positional

  /** The roles the parser gave them: `--double` stands alone, `--button` takes a value. */
  function ParsedRoles(args: seq<string>): seq<Role> {
    if args == [] then []
    else if IsButton(args[0]) then
      if |args| == 1 then [Flag] else [Flag, FlagValue] + ParsedRoles(args[2..])
    else if IsDouble(args[0]) then [Flag] + ParsedRoles(args[1..])
    else [Positional] + ParsedRoles(args[1..])
  }

  /** The roles `positional_args` gives them: every flag takes the next token as its value. */
  function WalkedRoles(args: seq<string>, skipNext: bool): seq<Role> {
    if args == [] then []
    else if skipNext then [FlagValue] + WalkedRoles(args[1..], false)
    else if Dashed(args[0]) then [Flag] + WalkedRoles(args[1..], true)
    else [Positional] + WalkedRoles(args[1..], false)
  }

  /** The tokens in positional places. */
  function Positionals(args: seq<string>, roles: seq<Role>): seq<string>
    requires |args| == |roles|
  {
    if args == [] then []
    else (if roles[0] == Positional then [args[0]] else []) + Positionals(args[1..], roles[1..])
  }

  lemma {:induction false} WalkedRolesLength(args: seq<string>, skipNext: bool)
    ensures |WalkedRoles(args, skipNext)| == |args|
  {
    hide Dashed;
    if args != [] {
      WalkedRolesLength(args[1..], !skipNext && Dashed(args[0]));
    }
  }

  method PositionalArgs(args: seq<string>) returns (r: seq<string>)
    ensures |WalkedRoles(args, false)| == |args|
    ensures r == Positionals(args, WalkedRoles(args, false))
  {
    hide Dashed;
    WalkedRolesLength(args, false);
    r := [];
    var skipNext := false;
    for i := 0 to |args|
      invariant |WalkedRoles(args[i..], skipNext)| == |args| - i
      invariant Positionals(args, WalkedRoles(args, false))
             == r + Positionals(args[i..], WalkedRoles(args[i..], skipNext))
    {
      assert args[i..][1..] == args[i + 1..];
      WalkedRolesLength(args[i..], skipNext);
      if skipNext {
        skipNext := false;
        continue;
      }
      if Dashed(args[i]) {
        skipNext := true;
        continue;
      }
      r := r + [args[i]];
    }
  }

  /** `--double` stands nowhere but at the very end. */
  predicate DoubleOnlyLast(args: seq<string>) {
    if args == [] then true
    else if IsButton(args[0]) then |args| == 1 || DoubleOnlyLast(args[2..])
    else if IsDouble(args[0]) then |args| == 1
    else DoubleOnlyLast(args[1..])
  }

  /** Both readings of a parsed click step give every token the same role exactly when `--double` is absent
      or last; then `positional_args` returns the coordinates the parser saw. */
  lemma {:induction false} RolesAgreeIff(args: seq<string>, got: nat)
    requires ClickArgs(args, got)
    ensures ParsedRoles(args) == WalkedRoles(args, false) <==> DoubleOnlyLast(args)
  {
    hide IsVerb, Dashed, ParsedRoles, WalkedRoles;
    RolesUnfold(args, got);
    if args != [] {
      if IsButton(args[0]) {
        RolesAgreeIff(args[2..], got);
        RolesSplit([Flag, FlagValue], ParsedRoles(args[2..]), WalkedRoles(args[2..], false));
      } else if !IsDouble(args[0]) {
        RolesAgreeIff(args[1..], got + 1);
        RolesSplit([Positional], ParsedRoles(args[1..]), WalkedRoles(args[1..], false));
      }
    }
  }

  /** Both readings of the first item of a click step. */
  lemma RolesUnfold(args: seq<string>, got: nat)
    requires ClickArgs(args, got)
    ensures args == [] ==> ParsedRoles(args) == WalkedRoles(args, false) == []
    ensures args != [] && IsButton(args[0]) ==>
              && ParsedRoles(args) == [Flag, FlagValue] + ParsedRoles(args[2..])
              && WalkedRoles(args, false) == [Flag, FlagValue] + WalkedRoles(args[2..], false)
    ensures args != [] && IsDouble(args[0]) ==>
              (ParsedRoles(args) == WalkedRoles(args, false) <==> |args| == 1)
    ensures args != [] && !IsButton(args[0]) && !IsDouble(args[0]) ==>
              && ParsedRoles(args) == [Positional] + ParsedRoles(args[1..])
              && WalkedRoles(args, false) == [Positional] + WalkedRoles(args[1..], false)
  {
    hide IsVerb;
    if args != [] {
      if IsButton(args[0]) {
        assert args[1..][1..] == args[2..];
        assert WalkedRoles(args[1..], true) == [FlagValue] + WalkedRoles(args[2..], false);
      } else if IsDouble(args[0]) && |args| > 1 {
        FirstRoles(args[1..]);
        RolesSplit([Flag], ParsedRoles(args[1..]), WalkedRoles(args[1..], true));
      }
    }
  }

  lemma RolesSplit(front: seq<Role>, a: seq<Role>, b: seq<Role>)
    ensures front + a == front + b <==> a == b
  {
    assert (front + a)[|front|..] == a && (front + b)[|front|..] == b;
  }

  lemma FirstRoles(args: seq<string>)
    requires args != []
    ensures ParsedRoles(args) != WalkedRoles(args, true)
  {
    assert WalkedRoles(args, true)[0] == FlagValue;
    assert ParsedRoles(args)[0] != FlagValue;
  }

  // ----- The two coordinates -----

  /** The places of the first `need` positional tokens, `at` being the place of the first role. */
  function Places(roles: seq<Role>, need: nat, at: nat): seq<nat> {
    if need == 0 || roles == [] then []
    else if roles[0] == Positional then [at] + Places(roles[1..], need - 1, at + 1)
    else Places(roles[1..], need, at + 1)
  }

  /** No `--double` stands before the last of `need` more positionals. */
  predicate NoDoubleBefore(args: seq<string>, need: nat) {
    if need == 0 || args == [] then true
    else if IsButton(args[0]) then |args| == 1 || NoDoubleBefore(args[2..], need)
    else !IsDouble(args[0]) && NoDoubleBefore(args[1..], need - 1)
  }

  /** The `--double` flags of a step; a `--double` that is the value of `--button` is none. */
  function Doubles(args: seq<string>): nat {
    if args == [] then 0
    else if IsButton(args[0]) then if |args| == 1 then 0 else Doubles(args[2..])
    else (if IsDouble(args[0]) then 1 else 0) + Doubles(args[1..])
  }

  /** Where the walk is in step with the parser, or one token `behind` after a `--double`, it stays or comes
      right for `need` more positionals: the second of two `--double`s, with nothing between them but
      `--button`s whose values are dashed, puts it right again. */
  predicate ComesRight(args: seq<string>, behind: bool, need: nat) {
    if need == 0 || args == [] then true
    else if IsButton(args[0]) then
      |args| == 1 || (ComesRight(args[2..], behind, need) && (behind ==> Dashed(args[1])))
    else if IsDouble(args[0]) then ComesRight(args[1..], !behind, need)
    else !behind && ComesRight(args[1..], false, need - 1)
  }

  lemma {:induction false} PlacesFrom(roles: seq<Role>, need: nat, at: nat)
    ensures forall p <- Places(roles, need, at) :: at <= p
  {
    if need > 0 && roles != [] {
      PlacesFrom(roles[1..], if roles[0] == Positional then need - 1 else need, at + 1);
    }
  }

  lemma PlacesStep(role: Role, roles: seq<Role>, need: nat, at: nat)
    requires need > 0
    ensures Places([role] + roles, need, at)
         == if role == Positional then [at] + Places(roles, need - 1, at + 1) else Places(roles, need, at + 1)
  {
    assert ([role] + roles)[1..] == roles;
  }

  /** The roles of the first token, and of the first two of a `--button`, in both readings. */
  lemma RolesStep(args: seq<string>, behind: bool, got: nat)
    requires ClickArgs(args, got) && args != []
    ensures !IsButton(args[0]) ==>
              && ParsedRoles(args) == [if IsDouble(args[0]) then Flag else Positional] + ParsedRoles(args[1..])
              && WalkedRoles(args, behind)
              == [if behind then FlagValue else if IsDouble(args[0]) then Flag else Positional]
                 + WalkedRoles(args[1..], !behind && IsDouble(args[0]))
    ensures IsButton(args[0]) ==>
              && |args| >= 2
              && ParsedRoles(args) == [Flag] + ([FlagValue] + ParsedRoles(args[2..]))
              && WalkedRoles(args, behind)
              == if !behind then [Flag] + ([FlagValue] + WalkedRoles(args[2..], false))
                 else [FlagValue] + ([if Dashed(args[1]) then Flag else Positional]
                                     + WalkedRoles(args[2..], Dashed(args[1])))
  {
    hide IsVerb, Dashed, IsButton, IsDouble;
    ButtonAndDoubleAreDashed(args[0]);
    assert |args| >= 2 ==> args[1..][1..] == args[2..];
  }

  /** The first positional places agree in both readings if and only if the walk comes right. */
  lemma {:induction false} PlacesAgreeIff(args: seq<string>, behind: bool, got: nat, at: nat)
    requires ClickArgs(args, got) && got <= 2
    ensures Places(ParsedRoles(args), 2 - got, at) == Places(WalkedRoles(args, behind), 2 - got, at)
       <==> ComesRight(args, behind, 2 - got)
    decreases args, 1
  {
    hide IsVerb, Dashed, IsButton, IsDouble, ParsedRoles, WalkedRoles, Places;
    var need := 2 - got;
    NoPlaces(ParsedRoles(args), at);
    NoPlaces(WalkedRoles(args, behind), at);
    if need > 0 {
      RolesStep(args, behind, got);
      if IsButton(args[0]) {
        ButtonPlaces(args, behind, got, at);
      } else {
        var parsed := ParsedRoles(args[1..]);
        var walked := WalkedRoles(args[1..], !behind && IsDouble(args[0]));
        PlacesStep(if IsDouble(args[0]) then Flag else Positional, parsed, need, at);
        PlacesStep(if behind then FlagValue else if IsDouble(args[0]) then Flag else Positional, walked, need, at);
        if IsDouble(args[0]) {
          PlacesAgreeIff(args[1..], !behind, got, at + 1);
        } else if behind {
          PlacesFrom(walked, need, at + 1);
          StartsApart(at, Places(parsed, need - 1, at + 1), Places(walked, need, at + 1));
        } else {
          PlacesAgreeIff(args[1..], false, got + 1, at + 1);
          SamePlace(at, Places(parsed, need - 1, at + 1), Places(walked, need - 1, at + 1));
        }
      }
    }
  }

  lemma {:induction false} ButtonPlaces(args: seq<string>, behind: bool, got: nat, at: nat)
    requires ClickArgs(args, got) && got < 2 && args != [] && IsButton(args[0])
    ensures Places(ParsedRoles(args), 2 - got, at) == Places(WalkedRoles(args, behind), 2 - got, at)
       <==> ComesRight(args, behind, 2 - got)
    decreases args, 0
  {
    hide IsVerb, Dashed, IsButton, IsDouble, ParsedRoles, WalkedRoles, Places;
    var need := 2 - got;
    RolesStep(args, behind, got);
    var parsed := ParsedRoles(args[2..]);
    PlacesStep(Flag, [FlagValue] + parsed, need, at);
    PlacesStep(FlagValue, parsed, need, at + 1);
    PlacesAgreeIff(args[2..], behind, got, at + 2);
    if behind {
      var walked := WalkedRoles(args[2..], Dashed(args[1]));
      var role := if Dashed(args[1]) then Flag else Positional;
      PlacesStep(FlagValue, [role] + walked, need, at);
      PlacesStep(role, walked, need, at + 1);
      if !Dashed(args[1]) {
        PlacesFrom(parsed, need, at + 2);
        StartsApart(at + 1, Places(walked, need - 1, at + 2), Places(parsed, need, at + 2));
      }
    } else {
      var walked := WalkedRoles(args[2..], false);
      PlacesStep(Flag, [FlagValue] + walked, need, at);
      PlacesStep(FlagValue, walked, need, at + 1);
    }
  }

  lemma NoPlaces(roles: seq<Role>, at: nat)
    ensures Places(roles, 0, at) == []
  {
  }

  lemma StartsApart(p: nat, ps: seq<nat>, qs: seq<nat>)
    requires forall q <- qs :: p < q
    ensures [p] + ps != qs
  {
    assert ([p] + ps)[0] == p;
    assert p !in qs;
  }

  lemma SamePlace(p: nat, ps: seq<nat>, qs: seq<nat>)
    ensures [p] + ps == [p] + qs <==> ps == qs
  {
    assert ([p] + ps)[1..] == ps && ([p] + qs)[1..] == qs;
  }

  /** With one `--double` at most, the walk comes right exactly if it stands behind the coordinates. */
  lemma {:induction false} RightWithOneDouble(args: seq<string>, behind: bool, got: nat)
    requires ClickArgs(args, got) && got <= 2 && Doubles(args) + (if behind then 1 else 0) <= 1
    ensures ComesRight(args, behind, 2 - got) <==> NoDoubleBefore(args, 2 - got) && (behind ==> got == 2)
  {
    hide IsVerb, Dashed, IsButton, IsDouble;
    if got < 2 {
      if IsButton(args[0]) {
        RightWithOneDouble(args[2..], behind, got);
      } else if IsDouble(args[0]) {
        RightWithOneDouble(args[1..], true, got);
      } else {
        RightWithOneDouble(args[1..], false, got + 1);
      }
    }
  }

  /** In a click step with at most one `--double`, the click branch finds the coordinates where the parser saw
      them if and only if no `--double` stands before the second one. */
  lemma CoordinatesAgreeIff(args: seq<string>)
    requires ClickArgs(args, 0) && Doubles(args) <= 1
    ensures Places(ParsedRoles(args), 2, 0) == Places(WalkedRoles(args, false), 2, 0) <==> NoDoubleBefore(args, 2)
  {
    hide ClickArgs, Doubles, Places, ParsedRoles, WalkedRoles, ComesRight, NoDoubleBefore;
    PlacesAgreeIff(args, false, 0, 0);
    RightWithOneDouble(args, false, 0);
  }

  lemma {:induction false} ParsedRolesLength(args: seq<string>)
    ensures |ParsedRoles(args)| == |args|
  {
    if args != [] {
      if IsButton(args[0]) && |args| > 1 { ParsedRolesLength(args[2..]); }
      if !IsButton(args[0]) { ParsedRolesLength(args[1..]); }
    }
  }

  /** `ps` are places, counted from `at`, of the first tokens in `found`; all of them if fewer than `need`. */
  predicate Hold(args: seq<string>, ps: seq<nat>, found: seq<string>, need: nat, at: nat) {
    && |ps| <= need && |ps| <= |found| && (|ps| < need ==> |found| == |ps|)
    && forall i :: 0 <= i < |ps| ==> at <= ps[i] < at + |args| && args[ps[i] - at] == found[i]
  }

  lemma HoldStep(args: seq<string>, ps: seq<nat>, found: seq<string>, need: nat, at: nat)
    requires args != [] && Hold(args[1..], ps, found, need, at + 1)
    ensures Hold(args, ps, found, need, at) && Hold(args, [at] + ps, [args[0]] + found, need + 1, at)
  {
  }

  lemma {:induction false} PlacesHold(args: seq<string>, roles: seq<Role>, need: nat, at: nat)
    requires |args| == |roles|
    ensures Hold(args, Places(roles, need, at), Positionals(args, roles), need, at)
  {
    if need > 0 && args != [] {
      hide Hold;
      var more := if roles[0] == Positional then need - 1 else need;
      PlacesHold(args[1..], roles[1..], more, at + 1);
      HoldStep(args, Places(roles[1..], more, at + 1), Positionals(args[1..], roles[1..]), more, at);
      assert [] + Positionals(args[1..], roles[1..]) == Positionals(args[1..], roles[1..]);
    }
  }

  lemma {:induction false} ParsedPlaces(args: seq<string>, got: nat, at: nat)
    requires ClickArgs(args, got) && got <= 2
    ensures |Places(ParsedRoles(args), 2 - got, at)| == 2 - got
  {
    hide IsVerb, Dashed, IsButton, IsDouble, ParsedRoles, Places;
    NoPlaces(ParsedRoles(args), at);
    if got < 2 {
      RolesStep(args, false, got);
      if IsButton(args[0]) {
        PlacesStep(Flag, [FlagValue] + ParsedRoles(args[2..]), 2 - got, at);
        PlacesStep(FlagValue, ParsedRoles(args[2..]), 2 - got, at + 1);
        ParsedPlaces(args[2..], got, at + 2);
      } else {
        PlacesStep(if IsDouble(args[0]) then Flag else Positional, ParsedRoles(args[1..]), 2 - got, at);
        ParsedPlaces(args[1..], if IsDouble(args[0]) then got else got + 1, at + 1);
      }
    }
  }

  lemma {:induction false} RightWithoutDouble(args: seq<string>, got: nat)
    requires ClickArgs(args, got) && got <= 2 && NoDoubleBefore(args, 2 - got)
    ensures ComesRight(args, false, 2 - got)
  {
    hide IsVerb, Dashed, IsButton, IsDouble;
    if got < 2 {
      if IsButton(args[0]) { RightWithoutDouble(args[2..], got); } else { RightWithoutDouble(args[1..], got + 1); }
    }
  }

  /** In every click step without a `--double` before its second coordinate, whatever follows, the first two
      tokens the click branch takes for coordinates are the first two the parser saw as positionals. */
  lemma CoordinatesKept(args: seq<string>)
    requires ClickArgs(args, 0) && NoDoubleBefore(args, 2)
    ensures |ParsedRoles(args)| == |args| == |WalkedRoles(args, false)|
    ensures var seen, read := Positionals(args, ParsedRoles(args)), Positionals(args, WalkedRoles(args, false));
            |seen| >= 2 && |read| >= 2 && read[..2] == seen[..2]
  {
    hide ClickArgs, Places, ParsedRoles, WalkedRoles, ComesRight, NoDoubleBefore, Positionals;
    ParsedRolesLength(args);
    WalkedRolesLength(args, false);
    RightWithoutDouble(args, 0);
    PlacesAgreeIff(args, false, 0, 0);
    ParsedPlaces(args, 0, 0);
    PlacesHold(args, ParsedRoles(args), 2, 0);
    PlacesHold(args, WalkedRoles(args, false), 2, 0);
  }

  /** The whole failing family of a click with its `--double` in front: the x coordinate is skipped and y is
      taken for x. */
  lemma LeadingDoubleLosesX(x: string, y: string)
    requires !Dashed(x) && !Dashed(y) && !IsVerb(y)
    ensures ClickArgs(["--double", x, y], 0)
    ensures |WalkedRoles(["--double", x, y], false)| == 3
    ensures Positionals(["--double", x, y], WalkedRoles(["--double", x, y], false)) == [y]
  {
    hide IsVerb;
    var args := ["--double", x, y];
    assert args[1..] == [x, y] && [x, y][1..] == [y] && [y][1..] == [];
    assert !IsButton(x) && !IsDouble(x) && !IsButton(y) && !IsDouble(y);
    assert ClickArgs([], 2) && ClickArgs([y], 1) && ClickArgs([x, y], 0);
    assert WalkedRoles([y], false) == [Positional];
    assert WalkedRoles([x, y], true) == [FlagValue, Positional];
    var roles := WalkedRoles(args, false);
    assert roles == [Flag, FlagValue, Positional];
    assert roles[1..] == [FlagValue, Positional] && [FlagValue, Positional][1..] == [Positional];
    assert Positionals([y], [Positional]) == [y];
    assert Positionals([x, y], [FlagValue, Positional]) == [y];
  }
}
