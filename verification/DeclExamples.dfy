// Declarations as one types them, and what the reader writes for them, letter by
// letter.
module DeclExamples {
  import opened DeclLexer
  import opened DeclMachine
  import opened DeclReading
  import opened DeclWords
  import opened Sequences
  import Decimal

  // The tokens of s are ts; quantified, so that proofs unfold them only on demand.
  ghost predicate Cuts(s: string, ts: seq<Token>) {
    forall r: string :: r == s ==> Tokens(r) == ts
  }

  lemma WordNext(s: string, k: nat, w: string, tail: string, ts: seq<Token>, us: seq<Token>)
    requires ListedWord(w) && (tail != "" ==> !Listed(tail[0])) && s == Blanks(k) + w + tail
    requires Cuts(tail, ts) && us == [WordToken(w)] + ts
    ensures Cuts(s, us)
  {
    WordCut(k, w, tail);
  }

  lemma CharNext(s: string, k: nat, c: char, tail: string, ts: seq<Token>, us: seq<Token>)
    requires !Listed(c) && c != ' ' && c != NUL && s == Blanks(k) + [c] + tail
    requires Cuts(tail, ts) && us == [Mark(c)] + ts
    ensures Cuts(s, us)
  {
    CharCut(k, c, tail);
  }

  lemma NothingNext()
    ensures Cuts("", [])
  {
    TokensOf("");
  }

  lemma EndTokens()
    ensures Cuts(")();", [Mark(')'), Mark('('), Mark(')'), Mark(';')])
  {
    NothingNext();
    CharNext(";", 0, ';', "", [], [Mark(';')]);
    CharNext(");", 0, ')', ";", [Mark(';')], [Mark(')'), Mark(';')]);
    CharNext("();", 0, '(', ");", [Mark(')'), Mark(';')], [Mark('('), Mark(')'), Mark(';')]);
    CharNext(")();", 0, ')', "();", [Mark('('), Mark(')'), Mark(';')], [Mark(')'), Mark('('), Mark(')'), Mark(';')]);
  }

  lemma NameToken(ts: seq<Token>)
    requires Cuts(")();", ts)
    ensures Cuts("next)();", [Token(IDENTIFIER, "next")] + ts)
  {
    WordNext("next)();", 0, "next", ")();", ts, [Token(IDENTIFIER, "next")] + ts);
  }

  lemma MiddleTokens(ts: seq<Token>)
    requires Cuts("next)();", ts)
    ensures Cuts(" (*next)();", [Mark('('), Mark('*')] + ts)
  {
    CharNext("*next)();", 0, '*', "next)();", ts, [Mark('*')] + ts);
    CharNext(" (*next)();", 1, '(', "*next)();", [Mark('*')] + ts, [Mark('('), Mark('*')] + ts);
  }

  lemma QualifierToken(ts: seq<Token>)
    requires Cuts(" (*next)();", ts)
    ensures Cuts("const (*next)();", [Token(QUALIFIER, "readonly")] + ts)
  {
    WordNext("const (*next)();", 0, "const", " (*next)();", ts, [Token(QUALIFIER, "readonly")] + ts);
  }

  lemma PointerToken(ts: seq<Token>)
    requires Cuts("const (*next)();", ts)
    ensures Cuts(" *const (*next)();", [Mark('*')] + ts)
  {
    CharNext(" *const (*next)();", 1, '*', "const (*next)();", ts, [Mark('*')] + ts);
  }

  lemma TypeWord()
    ensures ListedWord("char") && WordToken("char") == Token(TYPE, "char")
  {
  }

  lemma TypeToken(ts: seq<Token>)
    requires Cuts(" *const (*next)();", ts)
    ensures Cuts("char *const (*next)();", [Token(TYPE, "char")] + ts)
  {
    TypeWord();
    WordNext("char *const (*next)();", 0, "char", " *const (*next)();", ts, [Token(TYPE, "char")] + ts);
  }

  // char *const (*next)(), as a tree.
  function Next(): (d: Declarator)
    ensures WellFormedDeclarator(d)
  {
    Declarator([Pointer], Name("next"), Arrays([]))
  }

  function NextDeclarator(): (d: Declarator)
    ensures WellFormedDeclarator(d)
  {
    Declarator([Pointer, Qualified("const")], Group(Next()), Function([]))
  }

  lemma NextSides()
    ensures Left(NextDeclarator()) == [Mark('*'), Token(QUALIFIER, "readonly"), Mark('('), Mark('*')]
    ensures Right(NextDeclarator()) == [Mark(')'), Mark('('), Mark(')')]
  {
    assert Left(Next()) == [Mark('*')] && Right(Next()) == [];
    assert PrefixTokens(NextDeclarator().prefixes) == [Mark('*'), Token(QUALIFIER, "readonly")];
  }

  lemma NextTree()
    ensures WellFormed(Declaration(["char"], NextDeclarator()))
    ensures DeclarationTokens(Declaration(["char"], NextDeclarator()))
      == [Token(TYPE, "char")] + ([Mark('*')] + ([Token(QUALIFIER, "readonly")] + ([Mark('('), Mark('*')]
         + ([Token(IDENTIFIER, "next")] + [Mark(')'), Mark('('), Mark(')')]))))
  {
    NextSides();
    assert SpecifierTokens(["char"]) == [Token(TYPE, "char")];
    assert "char" in ["char"] && Classify("char").kind == TYPE;
    assert WellFormedDeclarator(Next());
  }

  lemma NextPrefixes()
    ensures PrefixesEnglish(NextDeclarator().prefixes) == ["readonly ", "point to "]
  {
    var ps := [Pointer, Qualified("const")];
    assert PrefixesEnglish([]) == [] && [Pointer][..0] == [];
    assert PrefixesEnglish([Pointer]) == ["point to "] + PrefixesEnglish([]);
    assert ps[..1] == [Pointer] && "readonly" + " " == "readonly ";
  }

  lemma NextDeclaratorEnglish()
    ensures DeclaratorEnglish(NextDeclarator()) == ["point to ", "function returning ", "readonly ", "point to "]
  {
    NextPrefixes();
    assert PrefixesEnglish([]) == [] && [Pointer][..0] == [];
    assert DeclaratorEnglish(Next()) == ["point to "];
  }

  lemma CharEnglish()
    ensures SpecifiersEnglish(["char"]) == ["char "]
  {
    assert ["char"][..0] == [] && SpecifiersEnglish([]) == [];
    assert "char" + " " == "char ";
  }

  lemma NextEnglish()
    requires WellFormed(Declaration(["char"], NextDeclarator()))
    ensures English(Declaration(["char"], NextDeclarator()))
      == ["next is ", "point to ", "function returning ", "readonly ", "point to ", "char ", "\n"]
  {
    var named, between, last := ["next is "], DeclaratorEnglish(NextDeclarator()), SpecifiersEnglish(["char"]);
    NextDeclaratorEnglish();
    CharEnglish();
    assert NameOf(NextDeclarator()) + " is " == "next is ";
    assert English(Declaration(["char"], NextDeclarator())) == named + between + last + ["\n"];
  }

  lemma TextRead(d: Declaration, text: string, ts: seq<Token>, tail: seq<Token>)
    requires WellFormed(d) && Ends(d.declarator.suffix, First(tail)) && Cuts(text, ts)
    requires ts == DeclarationTokens(d) + tail
    ensures RunText(text) == Done(Facing(tail, [], English(d), Stopped))
  {
    DeclarationRead(d, text, tail);
  }

  lemma NextCut()
    ensures Cuts("char *const (*next)();",
                 DeclarationTokens(Declaration(["char"], NextDeclarator())) + [Mark(';')])
  {
    var ts := [Mark(')'), Mark('('), Mark(')'), Mark(';')];
    EndTokens();
    NameToken(ts);
    ts := [Token(IDENTIFIER, "next")] + ts;
    MiddleTokens(ts);
    ts := [Mark('('), Mark('*')] + ts;
    QualifierToken(ts);
    ts := [Token(QUALIFIER, "readonly")] + ts;
    PointerToken(ts);
    ts := [Mark('*')] + ts;
    TypeToken(ts);
    ts := [Token(TYPE, "char")] + ts;
    NextTree();
    assert ts == DeclarationTokens(Declaration(["char"], NextDeclarator())) + [Mark(';')];
  }

  // A declaration, as one would type it.
  lemma NextRead()
    ensures var r := RunText("char *const (*next)();");
      && r.Done? && r.config.stack == []
      && r.config.output == ["next is ", "point to ", "function returning ", "readonly ", "point to ", "char ", "\n"]
  {
    var d := Declaration(["char"], NextDeclarator());
    NextTree();
    NextCut();
    NextEnglish();
    TextRead(d, "char *const (*next)();", DeclarationTokens(d) + [Mark(';')], [Mark(';')]);
  }

  lemma BoundExamples()
    ensures BoundText("10") == "0..9 " && BoundText("0x1f") == "0..-1 "
  {
    Decimal.Examples();
    NumberOfWord("10", "");
    NumberOfWord("0", "x1f");
    assert "10" + "" == "10" && "0" + "x1f" == "0x1f";
  }

  // Brackets with a size and without.
  lemma ArrayExamples(rest: seq<Token>)
    ensures ArrayRound(Facing([Mark('['), Token(IDENTIFIER, "10"), Mark(']')] + rest, [], [], GetArray))
      == Facing(rest, [], ["array ", "0..9 ", "of "], GetLparen)
    ensures ArrayRound(Facing([Mark('['), Mark(']')] + rest, [], [], GetArray))
      == Facing(rest, [], ["array ", "of "], GetLparen)
  {
    var sized := [Mark('['), Token(IDENTIFIER, "10"), Mark(']')] + rest;
    var open := [Mark('['), Mark(']')] + rest;
    BoundExamples();
    assert Rest(Rest(Rest(sized))) == rest && Rest(Rest(open)) == rest;
  }
}
