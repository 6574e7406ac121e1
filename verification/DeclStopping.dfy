// On which texts the declaration reader stops. It waits for ever for a name or a
// closing parenthesis that does not come, and looks below its stack if nothing
// stacked makes it stop; here these texts are told by their tokens.
module DeclStopping {
  import opened DeclLexer
  import opened DeclMachine
  import opened Sequences
  import Decimal

  // The tokens of one round of get_array: the opening bracket, a number if there
  // is one, and one token more, whatever it is.
  function RoundLength(ts: seq<Token>): nat {
    if |ts| >= 2 && ts[1].text != "" && Decimal.IsDigit(ts[1].text[0]) then 3 else 2
  }

  predicate IsBounds(ts: seq<Token>)
    decreases |ts|
  {
    && ts != [] && ts[0].kind == '[' && RoundLength(ts) <= |ts|
    && (RoundLength(ts) == |ts| || IsBounds(ts[RoundLength(ts)..]))
  }

  predicate IsParameters(ts: seq<Token>) {
    && |ts| >= 2 && ts[0].kind == '(' && ts[|ts| - 1].kind == ')'
    && forall i :: 0 <= i < |ts| - 1 ==> ts[i].kind != ')'
  }

  // What get_array and get_parms read in front of the token `next`.
  predicate IsSuffix(ts: seq<Token>, next: Token) {
    || (ts == [] && next.kind != '[' && next.kind != '(')
    || (IsBounds(ts) && next.kind != '[')
    || IsParameters(ts)
  }

  // What is read for one stacked parenthesis: a suffix and the token taken to be
  // the other parenthesis.
  predicate Visit(v: seq<Token>) {
    v != [] && IsSuffix(v[..|v| - 1], v[|v| - 1])
  }

  predicate Visits(vs: seq<seq<Token>>) {
    forall i :: 0 <= i < |vs| ==> Visit(vs[i])
  }

  predicate Unclosed(ts: seq<Token>) {
    ts != [] && ts[0].kind == '(' && forall i :: 0 <= i < |ts| ==> ts[i].kind != ')'
  }

  // The stacked parentheses the reader gets to before it writes the specifiers.
  function Groups(stack: seq<Token>): nat {
    if stack == [] || !Removable(stack[|stack| - 1]) then 0
    else (if stack[|stack| - 1].kind == '(' then 1 else 0) + Groups(stack[..|stack| - 1])
  }

  // Behind the name, after at most as many visits as there are such parentheses,
  // parameters begin that are never closed.
  ghost predicate Hangs(ts: seq<Token>, groups: nat) {
    exists vs: seq<seq<Token>> :: Visits(vs) && |vs| <= groups && Join(vs) <= ts && Unclosed(ts[|Join(vs)|..])
  }

  function Dropped(ts: seq<Token>, n: nat): seq<Token> {
    if n <= |ts| then ts[n..] else []
  }

  lemma RoundTaken(ts: seq<Token>, stack: seq<Token>, output: seq<string>, next: State) returns (more: seq<string>)
    requires ts != [] && ts[0].kind == '['
    ensures ArrayRound(Facing(ts, stack, output, next)) == Facing(Dropped(ts, RoundLength(ts)), stack, more, GetLparen)
  {
    more := ArrayRound(Facing(ts, stack, output, next)).output;
    if |ts| >= 2 {
      assert Rest(Rest(ts)) == ts[2..];
    }
  }

  lemma RoundInFront(ts: seq<Token>, tail: seq<Token>)
    requires 2 <= RoundLength(ts) <= |ts|
    ensures (ts + tail)[0] == ts[0] && RoundLength(ts + tail) == RoundLength(ts)
    ensures Dropped(ts + tail, RoundLength(ts)) == ts[RoundLength(ts)..] + tail
  {
  }

  lemma {:induction false} BoundsTaken(ts: seq<Token>, tail: seq<Token>, stack: seq<Token>, output: seq<string>,
                                       next: State)
    returns (more: seq<string>)
    requires IsBounds(ts) && First(tail).kind != '['
    ensures ArrayLoop(Facing(ts + tail, stack, output, next)) == Facing(tail, stack, more, GetLparen)
    decreases |ts|
  {
    var n, all := RoundLength(ts), ts + tail;
    RoundInFront(ts, tail);
    more := RoundTaken(all, stack, output, next);
    ArrayLoopRound(Facing(all, stack, output, next));
    if n < |ts| {
      more := BoundsTaken(ts[n..], tail, stack, more, GetLparen);
    } else {
      Empty(tail);
    }
  }

  lemma SuffixTaken(s: seq<Token>, tail: seq<Token>, stack: seq<Token>, output: seq<string>)
    returns (more: seq<string>)
    requires tail != [] && IsSuffix(s, tail[0])
    ensures Run(Facing(s + tail, stack, output, GetArray)) == Run(Facing(tail, stack, more, GetLparen))
  {
    var c := Facing(s + tail, stack, output, GetArray);
    if s == [] {
      Empty(tail);
      assert Step(c) == Done(c.(next := GetParms));
      more := output;
    } else if IsParameters(s) {
      var ps, closing := s[1..|s| - 1], s[|s| - 1];
      assert Step(c) == Done(c.(next := GetParms));
      assert c.input == ps + [closing] + tail;
      ParametersSkipped(c.current, ps, closing, tail);
      more := output + ["function returning "];
    } else {
      more := BoundsTaken(s, tail, stack, output, GetParms);
    }
  }

  lemma RoundIsBounds(ts: seq<Token>)
    requires ts != [] && ts[0].kind == '[' && RoundLength(ts) <= |ts|
    ensures IsBounds(ts[..RoundLength(ts)])
  {
  }

  lemma BoundsInFront(ts: seq<Token>, n: nat, j: nat)
    requires n + j < |ts| && ts[0].kind == '[' && n == RoundLength(ts)
    requires IsBounds(ts[n..][..j])
    ensures IsBounds(ts[..n + j])
  {
    var front := ts[..n + j];
    TakeThenDrop(ts, n, j);
    assert front[0] == ts[0] && front[1] == ts[1];
  }

  // Where the rounds of get_array end that begin with ts.
  lemma {:induction false} BoundsEnd(ts: seq<Token>, stack: seq<Token>, output: seq<string>, next: State)
    returns (k: nat, more: seq<string>)
    requires ts != [] && ts[0].kind == '['
    ensures k <= |ts| && (k < |ts| ==> IsBounds(ts[..k]) && ts[k].kind != '[')
    ensures ArrayLoop(Facing(ts, stack, output, next)) == Facing(ts[k..], stack, more, GetLparen)
    decreases |ts|
  {
    var n := RoundLength(ts);
    more := RoundTaken(ts, stack, output, next);
    ArrayLoopRound(Facing(ts, stack, output, next));
    if n >= |ts| {
      k := |ts|;
    } else if ts[n].kind != '[' {
      k := n;
      RoundIsBounds(ts);
    } else {
      var j;
      j, more := BoundsEnd(ts[n..], stack, more, GetLparen);
      k := n + j;
      SuffixAt(ts, n, j);
      if k < |ts| { BoundsInFront(ts, n, j); }
    }
  }

  lemma ParametersEnd(ts: seq<Token>) returns (k: nat)
    requires ts != [] && ts[0].kind == '(' && !Unclosed(ts)
    ensures 2 <= k <= |ts| && IsParameters(ts[..k])
  {
    k := 1;
    while ts[k].kind != ')'
      invariant 1 <= k < |ts| && forall i :: 0 <= i < k ==> ts[i].kind != ')'
      decreases |ts| - k
    {
      k := k + 1;
    }
    k := k + 1;
  }

  // Where the suffix ends that begins with ts, unless it is never closed; behind
  // the last token there is only the end of the input.
  lemma SuffixEnd(ts: seq<Token>, stack: seq<Token>, output: seq<string>) returns (k: nat, more: seq<string>)
    requires !Unclosed(ts)
    ensures k <= |ts| && (k < |ts| ==> IsSuffix(ts[..k], ts[k]))
    ensures Run(Facing(ts, stack, output, GetArray)) == Run(Facing(ts[k..], stack, more, GetLparen))
  {
    var c := Facing(ts, stack, output, GetArray);
    if ts != [] && ts[0].kind == '[' {
      k, more := BoundsEnd(ts, stack, output, GetParms);
    } else if ts != [] && ts[0].kind == '(' {
      k := ParametersEnd(ts);
      var ps, closing, tail := ts[1..k - 1], ts[k - 1], ts[k..];
      assert Step(c) == Done(c.(next := GetParms));
      assert c.input == ps + [closing] + tail;
      assert forall i :: 0 <= i < |ps| ==> ps[i] == ts[..k][i + 1];
      ParametersSkipped(c.current, ps, closing, tail);
      more := output + ["function returning "];
    } else {
      k, more := 0, output;
      assert ts[0..] == ts && ts[..0] == [];
      assert Step(c) == Done(c.(next := GetParms));
    }
  }

  // Stacked stars and qualifiers go until a parenthesis is popped, and one token
  // of the input with it; without one the run ends.
  lemma {:induction false} GroupTaken(ts: seq<Token>, stack: seq<Token>, output: seq<string>)
    returns (rest: seq<Token>, more: seq<string>)
    ensures Groups(stack) == 0 ==> Run(Facing(ts, stack, output, GetLparen)) != Stuck
    ensures Groups(stack) > 0 ==>
      && |rest| < |stack| && Groups(rest) == Groups(stack) - 1
      && Run(Facing(ts, stack, output, GetLparen)) == Run(Facing(Rest(ts), rest, more, GetArray))
    decreases |stack|
  {
    rest, more := stack, output;
    var c := Facing(ts, stack, output, GetLparen);
    var d := c.(next := GetPtrPart);
    if stack == [] {
      assert Step(c) == Done(d);
    } else if Top(c).kind == '(' {
      rest := Popped(c);
      assert Step(c) == Done(Facing(Rest(ts), rest, output, GetArray));
    } else if Removable(Top(c)) {
      var e := Step(d).config;
      assert Step(c) == Done(d) && e == Facing(ts, Popped(c), e.output, GetLparen);
      rest, more := GroupTaken(ts, Popped(c), e.output);
    } else {
      var e := c.(next := GetType);
      assert Step(c) == Done(d) && Step(d) == Done(e);
      assert Run(e) == Step(e);
    }
  }

  // At the end of the input nothing is waited for.
  lemma {:induction false} EndNeverHangs(stack: seq<Token>, output: seq<string>)
    ensures Run(Facing([], stack, output, GetLparen)) != Stuck
    decreases |stack|
  {
    var rest, more := GroupTaken([], stack, output);
    if Groups(stack) > 0 {
      var k, last := SuffixEnd([], rest, more);
      EndNeverHangs(rest, last);
    }
  }

  lemma {:induction false} HangingVisits(ts: seq<Token>, stack: seq<Token>, output: seq<string>)
    returns (vs: seq<seq<Token>>)
    requires Run(Facing(ts, stack, output, GetArray)) == Stuck
    ensures Visits(vs) && |vs| <= Groups(stack) && Join(vs) <= ts && Unclosed(ts[|Join(vs)|..])
    decreases |stack|
  {
    vs := [];
    if Unclosed(ts) {
      assert ts[0..] == ts;
    } else {
      var k, more := SuffixEnd(ts, stack, output);
      if k == |ts| { EndNeverHangs(stack, more); }
      var rest, last := GroupTaken(ts[k..], stack, more);
      assert Rest(ts[k..]) == ts[k + 1..];
      vs := HangingVisits(ts[k + 1..], rest, last);
      VisitInFront(ts, k, vs);
      vs := [ts[..k + 1]] + vs;
    }
  }

  lemma VisitInFront(ts: seq<Token>, k: nat, vs: seq<seq<Token>>)
    requires k < |ts| && IsSuffix(ts[..k], ts[k]) && Visits(vs) && Join(vs) <= ts[k + 1..]
    ensures var us := [ts[..k + 1]] + vs;
      && Visits(us) && Join(us) <= ts && ts[|Join(us)|..] == ts[k + 1..][|Join(vs)|..]
  {
    var v := ts[..k + 1];
    assert v[..k] == ts[..k] && Visit(v);
    assert ([v] + vs)[1..] == vs;
    assert ts == v + ts[k + 1..];
  }

  lemma VisitTaken(v: seq<Token>, tail: seq<Token>, stack: seq<Token>, output: seq<string>)
    returns (rest: seq<Token>, more: seq<string>)
    requires Visit(v) && Groups(stack) > 0
    ensures Groups(rest) == Groups(stack) - 1
    ensures Run(Facing(v + tail, stack, output, GetArray)) == Run(Facing(tail, rest, more, GetArray))
  {
    var s, x := v[..|v| - 1], v[|v| - 1];
    assert v + tail == s + ([x] + tail);
    more := SuffixTaken(s, [x] + tail, stack, output);
    rest, more := GroupTaken([x] + tail, stack, more);
    assert Rest([x] + tail) == tail;
  }

  lemma {:induction false} VisitsHang(vs: seq<seq<Token>>, tail: seq<Token>, stack: seq<Token>, output: seq<string>)
    requires Visits(vs) && |vs| <= Groups(stack) && Unclosed(tail)
    ensures Run(Facing(Join(vs) + tail, stack, output, GetArray)) == Stuck
    decreases |vs|
  {
    if vs == [] {
      Empty(tail);
      UnclosedHangs(tail, stack, output);
    } else {
      Assoc(vs[0], Join(vs[1..]), tail);
      var rest, more := VisitTaken(vs[0], Join(vs[1..]) + tail, stack, output);
      VisitsHang(vs[1..], tail, rest, more);
    }
  }

  lemma UnclosedHangs(ts: seq<Token>, stack: seq<Token>, output: seq<string>)
    requires Unclosed(ts)
    ensures Run(Facing(ts, stack, output, GetArray)) == Stuck
  {
    var c := Facing(ts, stack, output, GetArray);
    assert Step(c) == Done(c.(next := GetParms));
    assert forall i :: 0 <= i < |c.input| ==> c.input[i] == ts[i + 1];
    SkipsForEverExactly(c.current, c.input);
  }

  // The reader hangs behind a name exactly on unclosed parameters it gets to.
  lemma HangsExactly(ts: seq<Token>, stack: seq<Token>, output: seq<string>)
    ensures Run(Facing(ts, stack, output, GetArray)) == Stuck <==> Hangs(ts, Groups(stack))
  {
    if Run(Facing(ts, stack, output, GetArray)) == Stuck {
      var vs := HangingVisits(ts, stack, output);
    }
    if vs: seq<seq<Token>> :|
      Visits(vs) && |vs| <= Groups(stack) && Join(vs) <= ts && Unclosed(ts[|Join(vs)|..])
    {
      var tail := ts[|Join(vs)|..];
      assert ts == Join(vs) + tail;
      VisitsHang(vs, tail, stack, output);
    }
  }

  // So it does not if every opening parenthesis has a closing one behind it.
  lemma ClosedNeverHangs(ts: seq<Token>, groups: nat)
    requires forall i :: 0 <= i < |ts| && ts[i].kind == '(' ==> exists j :: i < j < |ts| && ts[j].kind == ')'
    ensures !Hangs(ts, groups)
  {
    forall k | 0 <= k <= |ts|
      ensures !Unclosed(ts[k..])
    {
      if k < |ts| && ts[k].kind == '(' {
        var j :| k < j < |ts| && ts[j].kind == ')';
        assert ts[k..][j - k] == ts[j];
      }
    }
  }

  // The tokens of a text on which the reader stops.
  ghost predicate Stops(ts: seq<Token>) {
    var k := NameAt(ts);
    k < |ts| && !Hangs(ts[k + 1..], Groups(ts[..k])) && !AllRemovable(ts[..k])
  }

  lemma EndsBehindName(ts: seq<Token>, stack: seq<Token>, output: seq<string>, r: Result)
    requires r == Run(Facing(ts, stack, output, GetArray))
    ensures r == Stuck <==> Hangs(ts, Groups(stack))
    ensures r == Undefined <==> !Hangs(ts, Groups(stack)) && AllRemovable(stack)
  {
    var c := Facing(ts, stack, output, GetArray);
    HangsExactly(ts, stack, output);
    if Run(c) != Stuck { UndefinedExactly(c); }
  }

  lemma NamedStep(text: string) returns (output: seq<string>)
    ensures var ts := Tokens(text);
      var k := NameAt(ts);
      Step(Start(text)) == if k == |ts| then Stuck else Done(Facing(ts[k + 1..], ts[..k], output, GetArray))
  {
    var ts := Tokens(text);
    var k := NameAt(ts);
    PushAllExactly(Start(text));
    Empty(ts[..k]);
    output := if k < |ts| then [] + [ts[k].text + " is "] else [];
  }

  // Of every text its tokens tell how the reader ends.
  lemma EndsExactly(text: string)
    ensures var ts := Tokens(text);
      var k := NameAt(ts);
      && (RunText(text) == Stuck <==> k == |ts| || Hangs(ts[k + 1..], Groups(ts[..k])))
      && (RunText(text) == Undefined <==>
          k < |ts| && !Hangs(ts[k + 1..], Groups(ts[..k])) && AllRemovable(ts[..k]))
      && (RunText(text).Done? <==> Stops(ts))
  {
    var ts, r := Tokens(text), RunText(text);
    var k := NameAt(ts);
    var output := NamedStep(text);
    if k == |ts| {
      assert r == Stuck;
    } else {
      assert r == Run(Facing(ts[k + 1..], ts[..k], output, GetArray));
      EndsBehindName(ts[k + 1..], ts[..k], output, r);
    }
  }

  lemma NameAndParenthesis()
    ensures Tokens("x") == [Token(IDENTIFIER, "x")]
    ensures Tokens("x(") == [Token(IDENTIFIER, "x"), Token('(', "(")]
  {
    WordLengthEnds("(");
    WordLengthEnds("");
    WordLengthStep("x");
    WordLengthStep("x(");
    assert "x"[1..] == "" && "x("[1..] == "(" && "x("[..1] == "x" && "x"[..1] == "x" && "("[1..] == "";
    TokensOf("x");
    TokensOf("x(");
    TokensOf("(");
  }

  lemma NothingHangs(text: string)
    requires Tokens(text) == []
    ensures RunText(text) == Stuck
  {
    EndsExactly(text);
  }

  lemma OpenParametersHang(text: string, ts: seq<Token>)
    requires Tokens(text) == ts == [Token(IDENTIFIER, "x"), Token('(', "(")]
    ensures RunText(text) == Stuck
  {
    var rest := [Token('(', "(")];
    assert NameAt(ts) == 0 && ts[1..] == rest && ts[..0] == [];
    var vs: seq<seq<Token>> := [];
    assert Join(vs) <= rest && rest[0..] == rest && Unclosed(rest[|Join(vs)|..]) && Visits(vs);
    EndsExactly(text);
  }

  lemma NameLooksBelow(text: string, ts: seq<Token>)
    requires Tokens(text) == ts == [Token(IDENTIFIER, "x")]
    ensures RunText(text) == Undefined
  {
    assert NameAt(ts) == 0 && ts[1..] == [] && ts[..0] == [];
    ClosedNeverHangs([], 0);
    EndsExactly(text);
  }

  // Nothing, and a name with open parameters, keep the reader going for ever; a
  // name alone makes it look at an empty stack.
  lemma FailingTexts()
    ensures RunText("") == Stuck && RunText("x(") == Stuck && RunText("x") == Undefined
  {
    NameAndParenthesis();
    NothingHangs("");
    OpenParametersHang("x(", Tokens("x("));
    NameLooksBelow("x", Tokens("x"));
  }
}
