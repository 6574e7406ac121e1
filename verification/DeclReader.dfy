// The declaration reader as a program: the states on the reader's own variables,
// each proved to do what DeclMachine says, and the driver loop.
module DeclReader {
  import opened DeclLexer
  import opened DeclMachine
  import opened DeclStopping
  import opened Sequences
  import Decimal

  class Reader {
    const text: string
    var cursor: nat
    var stack: array<Token>
    var top: int
    var current: Token
    var output: seq<string>  // one entry for each call of printf
    var nextstate: State
    ghost var input: seq<Token>  // the tokens of the text not read yet

    ghost predicate Valid()
      reads this
    {
      cursor <= |text| && -1 <= top < stack.Length && Unread(input, text[cursor..])
    }

    // The tokens of s are ts; quantified, so that proofs unfold them only on demand.
    static ghost predicate Unread(ts: seq<Token>, s: string) {
      forall r: string :: r == s ==> Tokens(r) == ts
    }

    ghost function Abstract(): Config
      requires Valid()
      reads this, stack
    {
      Config(input, stack[..top + 1], current, output, nextstate)
    }

    // The source's stack has 100 slots.
    constructor (text: string, slots: nat)
      ensures Valid() && fresh(stack) && stack.Length == slots
      ensures Abstract() == Start(text)
    {
      this.text := text;
      input := Tokens(text);
      cursor := 0;
      stack := new Token[slots](_ => END_OF_INPUT);
      top := -1;
      current := END_OF_INPUT;
      output := [];
      nextstate := Initialize;
    }

    method GetToken()
      requires Valid()
      modifies `cursor, `current, `input
      ensures Valid()
      ensures current == First(old(input)) && input == Rest(old(input))
    {
      assert input == Tokens(text[cursor..]);
      TokensOf(text[cursor..]);
      cursor, current := Scan(text, cursor);
      input := Tokens(text[cursor..]);
    }

    // Skip blanks, then read a word or a single character.
    static method Scan(text: string, start: nat) returns (p: nat, t: Token)
      requires start <= |text|
      ensures p <= |text|
      ensures var b := SkipBlanks(text[start..]);
        if b == "" then t == END_OF_INPUT && p == |text| else (t, text[p..]) == FirstToken(b)
    {
      p := start;
      while p < |text| && text[p] == ' '
        invariant start <= p <= |text|
        invariant SkipBlanks(text[p..]) == SkipBlanks(text[start..])
      {
        assert text[p..][1..] == text[p + 1..];
        p := p + 1;
      }
      if p == |text| {
        assert text[p..] == "";
        return p, END_OF_INPUT;
      }
      if IsAlnum(text[p]) {
        var word;
        p, word := ScanWord(text, p);
        t := Classify(word);
      } else {
        t := CharToken(text[p]);
        assert text[p..][1..] == text[p + 1..];
        p := p + 1;
      }
    }

    static method ScanWord(text: string, start: nat) returns (p: nat, word: string)
      requires start <= |text|
      ensures p <= |text|
      ensures var b, n := text[start..], WordLength(text[start..]); word == b[..n] && text[p..] == b[n..]
    {
      p, word := start, "";
      ghost var rest := text[start..];
      while p < |text| && IsAlnum(text[p])
        invariant start <= p <= |text| && rest == text[p..] && word + rest == text[start..]
        invariant WordLength(text[start..]) == |word| + WordLength(rest)
      {
        WordLengthStep(rest);
        Moved(word, rest);
        word := word + [text[p]];
        rest := rest[1..];
        p := p + 1;
      }
      WordLengthEnds(rest);
    }

    method Push(t: Token)
      requires Valid() && top + 1 < stack.Length
      modifies `top, stack
      ensures Valid() && stack[..top + 1] == old(stack[..top + 1]) + [t]
    {
      top := top + 1;
      stack[top] := t;
    }

    method Pop() returns (t: Token)
      requires Valid() && top >= 0
      modifies `top
      ensures Valid() && old(stack[..top + 1]) == stack[..top + 1] + [t]
    {
      t := stack[top];
      top := top - 1;
    }

    // One token has been read since before.
    ghost predicate OneRead(before: Config)
      requires Valid()
      reads this, stack
    {
      && nextstate == before.next && output == before.output && stack[..top + 1] == before.stack
      && current == First(before.input) && input == Rest(before.input)
    }

    method StackToken(ghost before: Config) returns (ghost after: Config)
      requires Valid() && OneRead(before) && |before.stack| < stack.Length
      modifies `cursor, `current, `input, `top, stack
      ensures Valid() && OneRead(after)
      ensures after == Config(input := Rest(before.input), stack := before.stack + [First(before.input)],
                              current := First(before.input), output := before.output, next := before.next)
    {
      Push(current);
      after := Abstract();
      GetToken();
    }

    method DoInitialize()
      requires Valid() && nextstate == Initialize
      requires NameAt(input) < |input| && top + 1 + NameAt(input) <= stack.Length
      modifies this, stack
      ensures Valid() && stack == old(stack)
      ensures Done(Abstract()) == Step(old(Abstract()))
    {
      RoomToName(Abstract(), stack.Length);
      ghost var goal := Step(Abstract());
      ghost var before := Abstract();
      GetToken();
      while current.kind != IDENTIFIER
        invariant Valid() && stack == old(stack) && OneRead(before) && PushAll(before) == goal
        decreases |before.input|
      {
        PushAllStep(before, stack.Length);
        before := StackToken(before);
      }
      output := output + [current.text + " is "];
      GetToken();
      nextstate := GetArray;
    }

    // One pair of brackets, whose opening one is the current token.
    method ReadBound()
      requires Valid()
      modifies `cursor, `current, `input, `output, `nextstate
      ensures Valid()
      ensures Abstract() == ArrayRound(old(Abstract()))
    {
      output := output + ["array "];
      ReadSize();
      GetToken();
      output := output + ["of "];
      nextstate := GetLparen;
    }

    // The bound itself, if there is one.
    method ReadSize()
      requires Valid()
      modifies `cursor, `current, `input, `output
      ensures Valid()
      ensures var t, i := First(old(input)), Rest(old(input));
        if t.text != "" && Decimal.IsDigit(t.text[0])
        then current == First(i) && input == Rest(i) && output == old(output) + [BoundText(t.text)]
        else current == t && input == i && output == old(output)
    {
      GetToken();
      if current.text != "" && Decimal.IsDigit(current.text[0]) {
        output := output + [BoundText(current.text)];
        GetToken();
      }
    }

    method DoGetArray()
      requires Valid() && nextstate == GetArray
      modifies `cursor, `current, `input, `output, `nextstate
      ensures Valid()
      ensures Done(Abstract()) == Step(old(Abstract()))
    {
      nextstate := GetParms;
      ghost var goal := ArrayLoop(Abstract());
      while current.kind == '['
        invariant Valid()
        invariant ArrayLoop(Abstract()) == goal
        decreases |input|, if current.kind == '[' then 1 else 0
      {
        ArrayLoopRound(Abstract());
        ReadBound();
      }
    }

    method DoGetParms()
      requires Valid() && nextstate == GetParms
      requires current.kind == '(' ==> exists i :: 0 <= i < |input| && input[i].kind == ')'
      modifies `cursor, `current, `input, `output, `nextstate
      ensures Valid()
      ensures Done(Abstract()) == Step(old(Abstract()))
    {
      SkipsForEverExactly(current, input);
      nextstate := GetLparen;
      if current.kind == '(' {
        ghost var goal := SkipToParen(current, input);
        while current.kind != ')'
          invariant Valid() && goal.At?
          invariant SkipToParen(current, input) == goal
          invariant output == old(output) && nextstate == GetLparen
          decreases |input|
        {
          GetToken();
        }
        GetToken();
        output := output + ["function returning "];
      }
    }

    method DoGetLparen()
      requires Valid() && nextstate == GetLparen
      modifies `cursor, `current, `input, `top, `nextstate
      ensures Valid()
      ensures Done(Abstract()) == Step(old(Abstract()))
    {
      nextstate := GetPtrPart;
      if top >= 0 {
        if stack[top].kind == '(' {
          var _ := Pop();
          GetToken();
          nextstate := GetArray;
        }
      }
    }

    method DoGetPtrPart()
      requires Valid() && nextstate == GetPtrPart && top >= 0
      modifies `top, `output, `nextstate
      ensures Valid()
      ensures Done(Abstract()) == Step(old(Abstract()))
    {
      nextstate := GetType;
      if stack[top].kind == '*' {
        output := output + ["point to "];
        var _ := Pop();
        nextstate := GetLparen;
      } else if stack[top].kind == QUALIFIER {
        var t := Pop();
        output := output + [t.text + " "];
        nextstate := GetLparen;
      }
    }

    method DoGetType()
      requires Valid() && nextstate == GetType
      modifies `top, `output, `nextstate
      ensures Valid()
      ensures Done(Abstract()) == Step(old(Abstract()))
    {
      nextstate := Stopped;
      PopAllTokens();
      output := output + ["\n"];
    }

    method PopAllTokens()
      requires Valid()
      modifies `top, `output
      ensures Valid() && top == -1
      ensures output == old(output) + Backwards(old(stack[..top + 1]))
    {
      ghost var goal := output + Backwards(stack[..top + 1]);
      while top >= 0
        invariant Valid() && top <= old(top)
        invariant output + Backwards(stack[..top + 1]) == goal
      {
        ghost var ts := stack[..top + 1];
        var t := Pop();
        BackwardsLast(ts, output);
        assert ts[..|ts| - 1] == stack[..top + 1];
        output := output + [t.text + " "];
      }
      assert stack[..top + 1] == [];
    }

    // The driver loop: states are run until there is no next one. The tokens before
    // the name must have room on the stack, of which the source checks nothing.
    method Drive()
      requires Valid() && Abstract() == Start(text)
      requires Stops(Tokens(text)) && NameAt(Tokens(text)) <= stack.Length
      modifies this, stack
      ensures Valid() && Done(Abstract()) == RunText(text)
    {
      EndsExactly(text);
      while nextstate != Stopped
        invariant Valid() && stack == old(stack) && RunText(text).Done?
        invariant if nextstate == Initialize then Abstract() == Start(text) else Run(Abstract()) == RunText(text)
        decreases nextstate == Initialize, Remaining(Abstract())
      {
        PushAllExactly(Abstract());
        StepComesCloser(Abstract());
        SkipsForEverExactly(current, input);
        match nextstate
        case Initialize => DoInitialize();
        case GetArray => DoGetArray();
        case GetParms => DoGetParms();
        case GetLparen => DoGetLparen();
        case GetPtrPart => DoGetPtrPart();
        case GetType => DoGetType();
      }
    }
  }
}
