// The declaration reader: a machine whose states read C tokens and write English.
// The functions say what each state does to a configuration.
module DeclMachine {
  import opened DeclLexer
  import opened Sequences
  import Decimal

  datatype State = Initialize | GetArray | GetParms | GetLparen | GetPtrPart | GetType | Stopped

  // `input` is the tokens not read yet, the stack grows to the right.
  datatype Config = Config(input: seq<Token>, stack: seq<Token>, current: Token, output: seq<string>, next: State)

  // A state either finishes, or skips tokens for ever because the one it waits
  // for never comes, or looks at the top of an empty stack.
  datatype Result = Done(config: Config) | Stuck | Undefined

  // ---------------------------------------------------------------------------
  // One state
  // ---------------------------------------------------------------------------

  // The number at the start of a token, as atoi reads it.
  function LeadingNumber(s: string): nat {
    Decimal.Value(s[..DigitCount(s)])
  }

  function DigitCount(s: string): (n: nat)
    ensures n <= |s| && Decimal.AllDigits(s[..n])
    ensures n < |s| ==> !Decimal.IsDigit(s[n])
  {
    if s != "" && Decimal.IsDigit(s[0]) then 1 + DigitCount(s[1..]) else 0
  }

  // The next token; at the end of the input it is END_OF_INPUT again and again.
  function First(input: seq<Token>): Token {
    if input == [] then END_OF_INPUT else input[0]
  }

  function Rest(input: seq<Token>): seq<Token> {
    if input == [] then [] else input[1..]
  }

  // Stack tokens up to the first identifier.
  function PushAll(c: Config): (r: Result)
    ensures r.Done? ==> c.stack <= r.config.stack && r.config.next == GetArray
    decreases |c.input|
  {
    var t, rest := First(c.input), Rest(c.input);
    if t.kind == IDENTIFIER then
      Done(Config(Rest(rest), c.stack, First(rest), c.output + [t.text + " is "], GetArray))
    else if c.input == [] then Stuck
    else PushAll(Config(rest, c.stack + [t], t, c.output, c.next))
  }

  lemma PushAllStep(c: Config, slots: nat)
    requires PushAll(c).Done? && |PushAll(c).config.stack| <= slots && First(c.input).kind != IDENTIFIER
    ensures var t, rest := First(c.input), Rest(c.input);
      c.input != [] && |c.stack| < slots && PushAll(c) == PushAll(Config(rest, c.stack + [t], t, c.output, c.next))
  {
  }

  // One round of the loop over array bounds.
  function ArrayRound(c: Config): (r: Config) {
    var t, i := First(c.input), Rest(c.input);
    if t.text != "" && Decimal.IsDigit(t.text[0]) then
      Config(Rest(Rest(i)), c.stack, First(Rest(i)), c.output + ["array "] + [BoundText(t.text)] + ["of "], GetLparen)
    else
      Config(Rest(i), c.stack, First(i), c.output + ["array "] + ["of "], GetLparen)
  }

  lemma ArrayLoopRound(c: Config)
    requires c.current.kind == '['
    ensures ArrayLoop(c) == ArrayLoop(ArrayRound(c))
  {
  }

  function BoundText(bound: string): string {
    "0.." + Decimal.PrintInt(LeadingNumber(bound) - 1) + " "
  }

  function ArrayLoop(c: Config): (r: Config)
    ensures r.stack == c.stack && r.next in {c.next, GetLparen}
    decreases |c.input|, if c.current.kind == '[' then 1 else 0
  {
    if c.current.kind != '[' then c else ArrayLoop(ArrayRound(c))
  }

  // Skip tokens up to the closing parenthesis, if there is one.
  datatype Skipped = At(input: seq<Token>) | Never

  function SkipToParen(current: Token, input: seq<Token>): (r: Skipped)
    decreases |input|
  {
    if current.kind == ')' then At(input)
    else if input == [] then Never
    else SkipToParen(First(input), Rest(input))
  }

  function Step(c: Config): Result
    requires c.next != Stopped
  {
    match c.next
    case Initialize => PushAll(c)
    case GetArray => Done(ArrayLoop(c.(next := GetParms)))
    case GetParms =>
      if c.current.kind != '(' then Done(c.(next := GetLparen))
      else (match SkipToParen(c.current, c.input)
            case Never => Stuck
            case At(input) =>
              Done(Config(Rest(input), c.stack, First(input), c.output + ["function returning "], GetLparen)))
    case GetLparen =>
      if c.stack != [] && Top(c).kind == '(' then
        Done(Config(Rest(c.input), Popped(c), First(c.input), c.output, GetArray))
      else Done(c.(next := GetPtrPart))
    case GetPtrPart =>
      if c.stack == [] then Undefined
      else if Top(c).kind == '*' then
        Done(c.(stack := Popped(c), output := c.output + ["point to "], next := GetLparen))
      else if Top(c).kind == QUALIFIER then
        Done(c.(stack := Popped(c), output := c.output + [Top(c).text + " "], next := GetLparen))
      else Done(c.(next := GetType))
    case GetType =>
      Done(c.(stack := [], output := c.output + Backwards(c.stack) + ["\n"], next := Stopped))
  }

  function Top(c: Config): Token
    requires c.stack != []
  {
    c.stack[|c.stack| - 1]
  }

  function Popped(c: Config): seq<Token>
    requires c.stack != []
  {
    c.stack[..|c.stack| - 1]
  }

  // The texts of the tokens, last one first.
  function Backwards(ts: seq<Token>): seq<string> {
    if ts == [] then [] else [ts[|ts| - 1].text + " "] + Backwards(ts[..|ts| - 1])
  }

  lemma BackwardsLast(ts: seq<Token>, output: seq<string>)
    requires ts != []
    ensures output + Backwards(ts) == output + [ts[|ts| - 1].text + " "] + Backwards(ts[..|ts| - 1])
  {
    Assoc(output, [ts[|ts| - 1].text + " "], Backwards(ts[..|ts| - 1]));
  }

  // The configuration with the tokens ts to come, the first one already read.
  function Facing(ts: seq<Token>, stack: seq<Token>, output: seq<string>, next: State): Config {
    Config(Rest(ts), stack, First(ts), output, next)
  }

  // Where the first identifier is; the length if there is none.
  function NameAt(ts: seq<Token>): (k: nat)
    ensures k <= |ts| && forall i :: 0 <= i < k ==> ts[i].kind != IDENTIFIER
    ensures k < |ts| ==> ts[k].kind == IDENTIFIER
  {
    if ts == [] || ts[0].kind == IDENTIFIER then 0 else 1 + NameAt(ts[1..])
  }

  // The first state stacks what is before the name; without a name it stacks the
  // end of the input for ever.
  lemma {:induction false} PushAllExactly(c: Config)
    ensures var k := NameAt(c.input);
      PushAll(c) == if k == |c.input| then Stuck
                    else Done(Facing(c.input[k + 1..], c.stack + c.input[..k],
                                     c.output + [c.input[k].text + " is "], GetArray))
    decreases |c.input|
  {
    if c.input != [] {
      var t, rest := c.input[0], c.input[1..];
      if t.kind == IDENTIFIER {
        Empty(c.stack);
      } else {
        PushAllExactly(Config(rest, c.stack + [t], t, c.output, c.next));
        var k := NameAt(rest);
        Assoc(c.stack, [t], rest[..k]);
        assert c.input[..k + 1] == [t] + rest[..k];
      }
    }
  }

  lemma RoomToName(c: Config, slots: nat)
    requires NameAt(c.input) < |c.input| && |c.stack| + NameAt(c.input) <= slots
    ensures PushAll(c).Done? && |PushAll(c).config.stack| <= slots
  {
    PushAllExactly(c);
  }

  // Skipping to the closing parenthesis never ends exactly if there is none.
  lemma {:induction false} SkipsForEverExactly(current: Token, input: seq<Token>)
    ensures SkipToParen(current, input) == Never <==>
      current.kind != ')' && forall i :: 0 <= i < |input| ==> input[i].kind != ')'
    decreases |input|
  {
    if current.kind != ')' && input != [] {
      SkipsForEverExactly(input[0], input[1..]);
      assert forall i :: 0 < i < |input| ==> input[i] == input[1..][i - 1];
    }
  }

  lemma {:induction false} ParametersSkipped(current: Token, ps: seq<Token>, closing: Token, tail: seq<Token>)
    requires current.kind != ')' && closing.kind == ')' && forall t :: t in ps ==> t.kind != ')'
    ensures SkipToParen(current, ps + [closing] + tail) == At(tail)
    decreases |ps|
  {
    var ts := ps + [closing] + tail;
    if ps == [] {
      assert Rest(ts) == tail;
    } else {
      assert Rest(ts) == ps[1..] + [closing] + tail;
      ParametersSkipped(ps[0], ps[1..], closing, tail);
    }
  }

  // ---------------------------------------------------------------------------
  // All states
  // ---------------------------------------------------------------------------

  function Rank(s: State): nat {
    match s
    case Stopped => 0
    case GetType => 1
    case GetPtrPart => 2
    case GetLparen => 3
    case GetParms => 4
    case GetArray => 5
    case Initialize => 6
  }

  function Remaining(c: Config): nat {
    3 * |c.stack| + Rank(c.next)
  }

  lemma StepComesCloser(c: Config)
    requires c.next != Stopped && Step(c).Done?
    ensures Step(c).config.next != Initialize
    ensures c.next != Initialize ==> Remaining(Step(c).config) < Remaining(c)
  {
  }

  // After the identifier the driver stops after a bounded number of states.
  function Run(c: Config): (r: Result)
    requires c.next != Initialize
    decreases Remaining(c)
  {
    if c.next == Stopped then Done(c)
    else
      match Step(c)
      case Done(c') => Run(c')
      case failed => failed
  }

  function Start(text: string): Config {
    Config(Tokens(text), [], END_OF_INPUT, [], Initialize)
  }

  function RunText(text: string): Result {
    match Step(Start(text))
    case Done(c) => Run(c)
    case failed => failed
  }

  // State calls made by Run, and the tokens it takes off the stack, in order.
  ghost function Calls(c: Config): nat
    requires c.next != Initialize
    decreases Remaining(c)
  {
    if c.next == Stopped then 0
    else 1 + if Step(c).Done? then Calls(Step(c).config) else 0
  }

  ghost function PoppedTokens(c: Config): seq<Token>
    requires c.next != Initialize
    decreases Remaining(c)
  {
    if c.next == Stopped || !Step(c).Done? then []
    else if c.next == GetType then Reversed(c.stack)
    else if |Step(c).config.stack| < |c.stack| then [Top(c)] + PoppedTokens(Step(c).config)
    else PoppedTokens(Step(c).config)
  }

  ghost function Reversed(ts: seq<Token>): (r: seq<Token>)
    ensures |r| == |ts|
  {
    if ts == [] then [] else [ts[|ts| - 1]] + Reversed(ts[..|ts| - 1])
  }

  // At most 3k + 5 calls after the first one, whatever the input holds.
  lemma {:induction false} CallsBounded(c: Config)
    requires c.next != Initialize
    ensures Calls(c) <= Remaining(c)
    decreases Remaining(c)
  {
    if c.next != Stopped && Step(c).Done? {
      CallsBounded(Step(c).config);
    }
  }

  // With k tokens stacked before the name, the driver makes at most 3k + 6 calls.
  lemma DriverCallsBounded(text: string)
    requires Step(Start(text)).Done?
    ensures var c := Step(Start(text)).config; 1 + Calls(c) <= 3 * |c.stack| + 6
  {
    CallsBounded(Step(Start(text)).config);
  }

  lemma PopsAtMostOne(c: Config)
    requires c.next !in {Initialize, GetType, Stopped} && Step(c).Done?
    ensures Step(c).config.next != Stopped
    ensures Step(c).config.stack == c.stack || (c.stack != [] && Step(c).config.stack == Popped(c))
  {
  }

  // A run that stops has taken every stacked token off exactly once, from the top.
  lemma {:induction false} EveryTokenPoppedOnce(c: Config)
    requires c.next != Initialize && (c.next == Stopped ==> c.stack == [])
    requires Run(c).Done?
    ensures PoppedTokens(c) == Reversed(c.stack) && Run(c).config.stack == []
    decreases Remaining(c)
  {
    if c.next == GetType {
      assert Run(Step(c).config) == Step(c);
    } else if c.next != Stopped {
      PopsAtMostOne(c);
      EveryTokenPoppedOnce(Step(c).config);
    }
  }

  // The tokens the states before GetType take off.
  predicate Removable(t: Token) {
    t.kind == '(' || t.kind == '*' || t.kind == QUALIFIER
  }

  predicate AllRemovable(ts: seq<Token>) {
    forall i :: 0 <= i < |ts| ==> Removable(ts[i])
  }

  // The reader looks below an empty stack exactly when every stacked token is one
  // that comes off early, that is, when no type was stacked.
  lemma {:induction false} UndefinedExactly(c: Config)
    requires c.next in {GetArray, GetParms, GetLparen, GetPtrPart}
    requires c.next == GetPtrPart && c.stack != [] ==> Top(c).kind != '('
    requires Run(c) != Stuck
    ensures Run(c) == Undefined <==> AllRemovable(c.stack)
    decreases Remaining(c)
  {
    if Step(c).Done? {
      var d := Step(c).config;
      if d.next == GetType {
        assert !Removable(Top(c));
        assert Run(d).Done?;
      } else {
        UndefinedExactly(d);
        if |d.stack| < |c.stack| {
          assert Removable(Top(c)) && c.stack == d.stack + [Top(c)];
        }
      }
    }
  }

  // A stacked TYPE keeps every run defined.
  lemma TypeKeepsRunDefined(text: string)
    requires var r := Step(Start(text)); r.Done? && exists t :: t in r.config.stack && t.kind == TYPE
    ensures RunText(text) != Undefined
  {
    var c := Step(Start(text)).config;
    if Run(c) != Stuck {
      UndefinedExactly(c);
      var t :| t in c.stack && t.kind == TYPE;
      var i :| 0 <= i < |c.stack| && c.stack[i] == t;
    }
  }
}
