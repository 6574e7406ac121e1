// The declarations the reader supports, as trees; what they mean in English, by
// structural recursion; and the proof that the machine computes that reading from
// their text.
module DeclReading {
  import opened DeclLexer
  import opened DeclMachine
  import opened Sequences
  import Decimal

  datatype Declaration = Declaration(specifiers: seq<string>, declarator: Declarator)

  // Prefixes bind weaker than the suffix.
  datatype Declarator = Declarator(prefixes: seq<Prefix>, direct: Direct, suffix: Suffix)

  datatype Direct = Name(id: string) | Group(inner: Declarator)

  datatype Prefix = Pointer | Qualified(word: string)

  datatype Suffix = Arrays(bounds: seq<Bound>) | Function(parameters: seq<Token>)

  // The size is what the word starts with, as in 10, 007 or 16u.
  datatype Bound = Open | Sized(digits: string, rest: string)

  // ---------------------------------------------------------------------------
  // Which trees are declarations
  // ---------------------------------------------------------------------------

  predicate IsQualifierWord(w: string) {
    Classify(w).kind == QUALIFIER
  }

  predicate WellFormed(d: Declaration) {
    && (forall w :: w in d.specifiers ==> Classify(w).kind == TYPE || IsQualifierWord(w))
    && (exists w :: w in d.specifiers && Classify(w).kind == TYPE)
    && WellFormedDeclarator(d.declarator)
  }

  predicate WellFormedDeclarator(d: Declarator) {
    && (forall p :: p in d.prefixes && p.Qualified? ==> IsQualifierWord(p.word))
    && (d.direct.Name? ==> IsWord(d.direct.id) && Classify(d.direct.id).kind == IDENTIFIER)
    && (d.direct.Group? ==> WellFormedDeclarator(d.direct.inner))
    && WellFormedSuffix(d.suffix)
  }

  predicate WellFormedSuffix(s: Suffix) {
    match s
    case Arrays(bounds) => forall b :: b in bounds ==> WellFormedBound(b)
    case Function(parameters) => forall t :: t in parameters ==> t.kind != ')'
  }

  predicate WellFormedBound(b: Bound) {
    b.Sized? ==>
      && b.digits != "" && Decimal.AllDigits(b.digits)
      && IsWord(b.digits + b.rest) && (b.rest != "" ==> !Decimal.IsDigit(b.rest[0]))
  }

  // The token after a declarator must not look like one more suffix.
  predicate Ends(s: Suffix, next: Token) {
    match s
    case Function(_) => true
    case Arrays(bounds) => next.kind != '[' && (bounds == [] ==> next.kind != '(')
  }

  // ---------------------------------------------------------------------------
  // Their tokens
  // ---------------------------------------------------------------------------

  function Mark(c: char): Token {
    Token(c, [c])
  }

  function PrefixTokens(ps: seq<Prefix>): (ts: seq<Token>)
    ensures |ts| == |ps|
  {
    seq(|ps|, i requires 0 <= i < |ps| => PrefixToken(ps[i]))
  }

  function PrefixToken(p: Prefix): Token {
    match p
    case Pointer => Mark('*')
    case Qualified(w) => Classify(w)
  }

  function BoundTokens(b: Bound): seq<Token> {
    match b
    case Open => [Mark('['), Mark(']')]
    case Sized(digits, rest) => [Mark('['), Token(IDENTIFIER, digits + rest), Mark(']')]
  }

  function BoundsTokens(bs: seq<Bound>): seq<Token> {
    if bs == [] then [] else BoundTokens(bs[0]) + BoundsTokens(bs[1..])
  }

  function SuffixTokens(s: Suffix): seq<Token> {
    match s
    case Arrays(bounds) => BoundsTokens(bounds)
    case Function(parameters) => [Mark('(')] + parameters + [Mark(')')]
  }

  // The tokens on either side of the name.
  function Left(d: Declarator): seq<Token> {
    PrefixTokens(d.prefixes) + if d.direct.Name? then [] else [Mark('(')] + Left(d.direct.inner)
  }

  function Right(d: Declarator): seq<Token> {
    (if d.direct.Name? then [] else Right(d.direct.inner) + [Mark(')')]) + SuffixTokens(d.suffix)
  }

  function NameOf(d: Declarator): string {
    if d.direct.Name? then d.direct.id else NameOf(d.direct.inner)
  }

  function SpecifierTokens(ws: seq<string>): (ts: seq<Token>)
    ensures |ts| == |ws|
  {
    seq(|ws|, i requires 0 <= i < |ws| => Classify(ws[i]))
  }

  function DeclarationTokens(d: Declaration): seq<Token> {
    SpecifierTokens(d.specifiers) + Left(d.declarator) + [Token(IDENTIFIER, NameOf(d.declarator))]
    + Right(d.declarator)
  }

  // ---------------------------------------------------------------------------
  // Their English
  // ---------------------------------------------------------------------------

  function BoundEnglish(b: Bound): seq<string>
    requires WellFormedBound(b)
  {
    match b
    case Open => ["array ", "of "]
    case Sized(digits, _) => ["array ", "0.." + Decimal.PrintInt(Decimal.Value(digits) - 1) + " ", "of "]
  }

  function BoundsEnglish(bs: seq<Bound>): seq<string>
    requires forall b :: b in bs ==> WellFormedBound(b)
  {
    if bs == [] then [] else BoundEnglish(bs[0]) + BoundsEnglish(bs[1..])
  }

  function SuffixEnglish(s: Suffix): seq<string>
    requires WellFormedSuffix(s)
  {
    match s
    case Arrays(bounds) => BoundsEnglish(bounds)
    case Function(_) => ["function returning "]
  }

  // Prefixes are read from the name outwards.
  function PrefixesEnglish(ps: seq<Prefix>): seq<string> {
    if ps == [] then [] else PrefixEnglish(ps[|ps| - 1]) + PrefixesEnglish(ps[..|ps| - 1])
  }

  function PrefixEnglish(p: Prefix): seq<string> {
    match p
    case Pointer => ["point to "]
    case Qualified(w) => [EnglishWord(w) + " "]
  }

  function EnglishWord(w: string): string {
    if w == "const" then "readonly" else w
  }

  // What is inside the parentheses first, then the suffix, then the prefixes.
  function DeclaratorEnglish(d: Declarator): seq<string>
    requires WellFormedDeclarator(d)
    decreases d, 1
  {
    InnerEnglish(d) + SuffixEnglish(d.suffix) + PrefixesEnglish(d.prefixes)
  }

  function InnerEnglish(d: Declarator): seq<string>
    requires WellFormedDeclarator(d)
    decreases d, 0
  {
    if d.direct.Name? then [] else DeclaratorEnglish(d.direct.inner)
  }

  function SpecifiersEnglish(ws: seq<string>): seq<string> {
    if ws == [] then [] else [EnglishWord(ws[|ws| - 1]) + " "] + SpecifiersEnglish(ws[..|ws| - 1])
  }

  function English(d: Declaration): seq<string>
    requires WellFormed(d)
  {
    [NameOf(d.declarator) + " is "] + DeclaratorEnglish(d.declarator) + SpecifiersEnglish(d.specifiers) + ["\n"]
  }

  // ---------------------------------------------------------------------------
  // The machine computes the English
  // ---------------------------------------------------------------------------

  lemma {:induction false} DigitsCounted(ds: string, rest: string)
    requires Decimal.AllDigits(ds) && (rest != "" ==> !Decimal.IsDigit(rest[0]))
    ensures DigitCount(ds + rest) == |ds|
    decreases |ds|
  {
    if ds == "" {
      Empty(rest);
    } else {
      assert (ds + rest)[1..] == ds[1..] + rest;
      DigitsCounted(ds[1..], rest);
    }
  }

  // The number of a word is that of the digits it starts with.
  lemma NumberOfWord(ds: string, rest: string)
    requires Decimal.AllDigits(ds) && (rest != "" ==> !Decimal.IsDigit(rest[0]))
    ensures LeadingNumber(ds + rest) == Decimal.Value(ds)
  {
    DigitsCounted(ds, rest);
    assert (ds + rest)[..|ds|] == ds;
  }

  lemma BoundRead(b: Bound, tail: seq<Token>, stack: seq<Token>, output: seq<string>, next: State)
    requires WellFormedBound(b)
    ensures First(BoundTokens(b) + tail).kind == '['
    ensures ArrayRound(Facing(BoundTokens(b) + tail, stack, output, next))
         == Facing(tail, stack, output + BoundEnglish(b), GetLparen)
  {
    var ts := BoundTokens(b) + tail;
    match b {
      case Open =>
        assert Rest(Rest(ts)) == tail;
        assert output + ["array "] + ["of "] == output + BoundEnglish(b);
      case Sized(digits, rest) =>
        assert Rest(Rest(Rest(ts))) == tail;
        var text := digits + rest;
        NumberOfWord(digits, rest);
        assert text[0] == digits[0];
        assert output + ["array "] + [BoundText(text)] + ["of "] == output + BoundEnglish(b);
    }
  }

  lemma {:induction false} BoundsRead(bs: seq<Bound>, tail: seq<Token>, stack: seq<Token>, output: seq<string>,
                                      next: State)
    requires First(tail).kind != '[' && forall b :: b in bs ==> WellFormedBound(b)
    ensures ArrayLoop(Facing(BoundsTokens(bs) + tail, stack, output, next))
         == Facing(tail, stack, output + BoundsEnglish(bs), if bs == [] then next else GetLparen)
    decreases |bs|
  {
    if bs == [] {
      Empty(tail);
      Empty(output);
    } else {
      var more := BoundsTokens(bs[1..]) + tail;
      Assoc(BoundTokens(bs[0]), BoundsTokens(bs[1..]), tail);
      BoundRead(bs[0], more, stack, output, next);
      ArrayLoopRound(Facing(BoundsTokens(bs) + tail, stack, output, next));
      BoundsRead(bs[1..], tail, stack, output + BoundEnglish(bs[0]), GetLparen);
      Assoc(output, BoundEnglish(bs[0]), BoundsEnglish(bs[1..]));
    }
  }

  lemma SuffixRead(s: Suffix, tail: seq<Token>, stack: seq<Token>, output: seq<string>)
    requires Ends(s, First(tail)) && WellFormedSuffix(s)
    ensures Run(Facing(SuffixTokens(s) + tail, stack, output, GetArray))
         == Run(Facing(tail, stack, output + SuffixEnglish(s), GetLparen))
  {
    match s {
      case Arrays(bounds) =>
        BoundsRead(bounds, tail, stack, output, GetParms);
        assert bounds == [] ==> SuffixTokens(s) + tail == tail;
      case Function(ps) =>
        var c := Facing(SuffixTokens(s) + tail, stack, output, GetArray);
        assert c.input == ps + [Mark(')')] + tail;
        assert Step(c) == Done(c.(next := GetParms));
        ParametersSkipped(c.current, ps, Mark(')'), tail);
    }
  }

  lemma {:induction false} PrefixesRead(ps: seq<Prefix>, base: seq<Token>, tail: seq<Token>, output: seq<string>)
    requires forall p :: p in ps && p.Qualified? ==> IsQualifierWord(p.word)
    ensures Run(Facing(tail, base + PrefixTokens(ps), output, GetLparen))
         == Run(Facing(tail, base, output + PrefixesEnglish(ps), GetLparen))
    decreases |ps|
  {
    if ps == [] {
      Empty(base);
      Empty(output);
    } else {
      var front, last := ps[..|ps| - 1], ps[|ps| - 1];
      var under := base + PrefixTokens(front);
      assert PrefixTokens(ps) == PrefixTokens(front) + [PrefixToken(last)];
      Assoc(base, PrefixTokens(front), [PrefixToken(last)]);
      assert last in ps;
      LastPrefixRead(last, under, tail, output);
      PrefixesRead(front, base, tail, output + PrefixEnglish(last));
      Assoc(output, PrefixEnglish(last), PrefixesEnglish(front));
    }
  }

  lemma LastPrefixRead(p: Prefix, under: seq<Token>, tail: seq<Token>, output: seq<string>)
    requires p.Qualified? ==> IsQualifierWord(p.word)
    ensures Run(Facing(tail, under + [PrefixToken(p)], output, GetLparen))
         == Run(Facing(tail, under, output + PrefixEnglish(p), GetLparen))
  {
    var c := Facing(tail, under + [PrefixToken(p)], output, GetLparen);
    var d := c.(next := GetPtrPart);
    assert Step(c) == Done(d);
    assert Popped(d) == under;
    assert Step(d) == Done(Facing(tail, under, output + PrefixEnglish(p), GetLparen));
  }

  // Whatever is stacked below and follows behind, a declarator is read as its
  // English, its tokens are gone from both sides, and nothing else is touched.
  lemma {:induction false} DeclaratorRead(d: Declarator, base: seq<Token>, tail: seq<Token>, output: seq<string>)
    requires WellFormedDeclarator(d) && Ends(d.suffix, First(tail))
    ensures Run(Facing(Right(d) + tail, base + Left(d), output, GetArray))
         == Run(Facing(tail, base, output + DeclaratorEnglish(d), GetLparen))
    decreases d, 0
  {
    var stacked := base + PrefixTokens(d.prefixes);
    var inner := InnerEnglish(d);
    var suffixed := SuffixTokens(d.suffix) + tail;
    if d.direct.Name? {
      Empty(SuffixTokens(d.suffix));
      Empty(PrefixTokens(d.prefixes));
      Empty(output);
    } else {
      var i := d.direct.inner;
      GroupRead(i, stacked, suffixed, output);
      Assoc(Right(i) + [Mark(')')], SuffixTokens(d.suffix), tail);
      Assoc(base, PrefixTokens(d.prefixes), [Mark('(')] + Left(i));
    }
    SuffixRead(d.suffix, tail, stacked, output + inner);
    PrefixesRead(d.prefixes, base, tail, output + inner + SuffixEnglish(d.suffix));
    Assoc(output, inner, SuffixEnglish(d.suffix));
    Assoc(output, inner + SuffixEnglish(d.suffix), PrefixesEnglish(d.prefixes));
  }

  // A parenthesised declarator: reading it ends at its two parentheses, which go.
  lemma {:induction false} GroupRead(d: Declarator, base: seq<Token>, tail: seq<Token>, output: seq<string>)
    requires WellFormedDeclarator(d)
    ensures Run(Facing(Right(d) + [Mark(')')] + tail, base + ([Mark('(')] + Left(d)), output, GetArray))
         == Run(Facing(tail, base, output + DeclaratorEnglish(d), GetArray))
    decreases d, 1
  {
    var closing := [Mark(')')] + tail;
    Assoc(Right(d), [Mark(')')], tail);
    Assoc(base, [Mark('(')], Left(d));
    DeclaratorRead(d, base + [Mark('(')], closing, output);
    var c := Facing(closing, base + [Mark('(')], output + DeclaratorEnglish(d), GetLparen);
    assert Popped(c) == base && c.input == tail;
  }

  lemma {:induction false} SpecifiersRead(ws: seq<string>, tail: seq<Token>, output: seq<string>)
    requires forall w :: w in ws ==> Classify(w).kind == TYPE || IsQualifierWord(w)
    requires exists w :: w in ws && Classify(w).kind == TYPE
    ensures Run(Facing(tail, SpecifierTokens(ws), output, GetLparen))
         == Done(Facing(tail, [], output + SpecifiersEnglish(ws) + ["\n"], Stopped))
    decreases |ws|
  {
    var front, last := ws[..|ws| - 1], ws[|ws| - 1];
    assert last in ws && ws == front + [last];
    assert SpecifierTokens(ws) == SpecifierTokens(front) + [Classify(last)];
    if IsQualifierWord(last) {
      LastPrefixRead(Qualified(last), SpecifierTokens(front), tail, output);
      SpecifiersRead(front, tail, output + [EnglishWord(last) + " "]);
      Assoc(output, [EnglishWord(last) + " "], SpecifiersEnglish(front));
    } else {
      SpecifiersBackwards(ws);
      TypeOnTop(Facing(tail, SpecifierTokens(ws), output, GetLparen));
    }
  }

  lemma TypeOnTop(c: Config)
    requires c.next == GetLparen && c.stack != [] && Top(c).kind == TYPE
    ensures Run(c) == Done(c.(stack := [], output := c.output + Backwards(c.stack) + ["\n"], next := Stopped))
  {
    var d := c.(next := GetPtrPart);
    var e := c.(next := GetType);
    assert Step(c) == Done(d) && Step(d) == Done(e);
    assert Run(e) == Step(e);
  }

  lemma {:induction false} SpecifiersBackwards(ws: seq<string>)
    requires forall w :: w in ws ==> Classify(w).kind == TYPE || IsQualifierWord(w)
    ensures Backwards(SpecifierTokens(ws)) == SpecifiersEnglish(ws)
  {
    if ws != [] {
      var front, last := ws[..|ws| - 1], ws[|ws| - 1];
      SpecifiersBackwards(front);
      assert last in ws;
      assert SpecifierTokens(ws)[..|ws| - 1] == SpecifierTokens(front);
    }
  }

  lemma {:induction false} LeftHasNoIdentifier(d: Declarator)
    requires WellFormedDeclarator(d)
    ensures forall t :: t in Left(d) ==> t.kind != IDENTIFIER
  {
    forall t | t in PrefixTokens(d.prefixes)
      ensures t.kind != IDENTIFIER
    {
      var i :| 0 <= i < |d.prefixes| && t == PrefixToken(d.prefixes[i]);
      assert d.prefixes[i] in d.prefixes;
    }
    if d.direct.Group? {
      LeftHasNoIdentifier(d.direct.inner);
    }
  }

  lemma NamedAt(stacked: seq<Token>, name: Token, tail: seq<Token>)
    requires name.kind == IDENTIFIER && forall t :: t in stacked ==> t.kind != IDENTIFIER
    ensures var ts := stacked + [name] + tail;
      NameAt(ts) == |stacked| && ts[..|stacked|] == stacked && ts[|stacked|] == name && ts[|stacked| + 1..] == tail
  {
    var ts := stacked + [name] + tail;
    assert ts[|stacked|] == name;
    assert forall i :: 0 <= i < |stacked| ==> ts[i] == stacked[i] && stacked[i] in stacked;
  }

  // Main result: on any text that is cut into the tokens of a declaration, the
  // reader stops with exactly the English of its tree written, an empty stack,
  // and only the one token after the declaration consumed.
  lemma DeclarationRead(d: Declaration, text: string, tail: seq<Token>)
    requires WellFormed(d) && Ends(d.declarator.suffix, First(tail))
    requires Tokens(text) == DeclarationTokens(d) + tail
    ensures RunText(text) == Done(Facing(tail, [], English(d), Stopped))
  {
    var specifiers, e := SpecifierTokens(d.specifiers), d.declarator;
    var stacked := specifiers + Left(e);
    var name := Token(IDENTIFIER, NameOf(e));
    var named := [NameOf(e) + " is "];
    NothingButNameIsIdentifier(d);
    Assoc(stacked + [name], Right(e), tail);
    NamedAt(stacked, name, Right(e) + tail);
    PushAllExactly(Start(text));
    Empty(stacked);
    Empty(named);
    DeclaratorRead(e, specifiers, tail, named);
    SpecifiersRead(d.specifiers, tail, named + DeclaratorEnglish(e));
  }

  lemma NothingButNameIsIdentifier(d: Declaration)
    requires WellFormed(d)
    ensures forall t :: t in SpecifierTokens(d.specifiers) + Left(d.declarator) ==> t.kind != IDENTIFIER
  {
    LeftHasNoIdentifier(d.declarator);
    forall t | t in SpecifierTokens(d.specifiers)
      ensures t.kind != IDENTIFIER
    {
      var i :| 0 <= i < |d.specifiers| && t == Classify(d.specifiers[i]);
      assert d.specifiers[i] in d.specifiers;
    }
  }

  // ---------------------------------------------------------------------------
  // From written text
  // ---------------------------------------------------------------------------

  predicate ParametersSpellable(d: Declarator) {
    && (d.suffix.Function? ==> forall t :: t in d.suffix.parameters ==> Spellable(t))
    && (d.direct.Group? ==> ParametersSpellable(d.direct.inner))
  }

  predicate AllSpellable(ts: seq<Token>) {
    forall t :: t in ts ==> Spellable(t)
  }

  lemma WordSpellable(w: string)
    requires Classify(w).kind != IDENTIFIER || IsWord(w)
    ensures Spellable(Classify(w))
  {
  }

  lemma SizeSpellable(b: Bound)
    requires WellFormedBound(b) && b.Sized?
    ensures Spellable(Token(IDENTIFIER, b.digits + b.rest))
  {
    var w := b.digits + b.rest;
    assert Decimal.IsDigit(b.digits[0]) && w[0] == b.digits[0];
  }

  lemma MarkSpellable(c: char)
    requires c in "*()[]"
    ensures Spellable(Mark(c))
  {
    assert !IsWord(Mark(c).text) by { assert !IsAlnum(Mark(c).text[0]); }
  }

  lemma {:induction false} BoundsSpellable(bs: seq<Bound>)
    requires forall b :: b in bs ==> WellFormedBound(b)
    ensures AllSpellable(BoundsTokens(bs))
  {
    if bs != [] {
      BoundsSpellable(bs[1..]);
      MarkSpellable('[');
      MarkSpellable(']');
      if bs[0].Sized? { SizeSpellable(bs[0]); }
    }
  }

  lemma {:induction false} DeclaratorSpellable(d: Declarator)
    requires WellFormedDeclarator(d) && ParametersSpellable(d)
    ensures AllSpellable(Left(d)) && AllSpellable(Right(d))
    ensures Spellable(Token(IDENTIFIER, NameOf(d)))
  {
    MarkSpellable('(');
    MarkSpellable(')');
    forall t | t in PrefixTokens(d.prefixes)
      ensures Spellable(t)
    {
      var i :| 0 <= i < |d.prefixes| && t == PrefixToken(d.prefixes[i]);
      assert d.prefixes[i] in d.prefixes;
      MarkSpellable('*');
      if d.prefixes[i].Qualified? { WordSpellable(d.prefixes[i].word); }
    }
    if d.suffix.Arrays? { BoundsSpellable(d.suffix.bounds); }
    if d.direct.Group? {
      DeclaratorSpellable(d.direct.inner);
    }
  }

  // A declaration written out with blanks between its tokens, followed by anything
  // that is not one more suffix or letter, makes the reader write its English.
  lemma WrittenDeclarationRead(d: Declaration, tail: string)
    requires WellFormed(d) && ParametersSpellable(d.declarator)
    requires Ends(d.declarator.suffix, First(Tokens(tail))) && (tail != "" ==> !IsAlnum(tail[0]))
    ensures RunText(Spell(DeclarationTokens(d)) + tail)
         == Done(Facing(Tokens(tail), [], English(d), Stopped))
  {
    DeclaratorSpellable(d.declarator);
    forall t | t in SpecifierTokens(d.specifiers)
      ensures Spellable(t)
    {
      var i :| 0 <= i < |d.specifiers| && t == Classify(d.specifiers[i]);
      assert d.specifiers[i] in d.specifiers;
      WordSpellable(d.specifiers[i]);
    }
    assert AllSpellable(DeclarationTokens(d));
    SpellTokens(DeclarationTokens(d), tail);
    DeclarationRead(d, Spell(DeclarationTokens(d)) + tail, Tokens(tail));
  }
}
