// What the lexer does, told without its own predicates: the characters of words and
// the words of each class are listed.
module DeclWords {
  import opened DeclLexer
  import opened Sequences

  const SMALL_LETTERS :=
    {'a', 'b', 'c', 'd', 'e', 'f', 'g', 'h', 'i', 'j', 'k', 'l', 'm', 'n', 'o', 'p', 'q', 'r', 's', 't', 'u',
     'v', 'w', 'x', 'y', 'z'}
  const CAPITAL_LETTERS :=
    {'A', 'B', 'C', 'D', 'E', 'F', 'G', 'H', 'I', 'J', 'K', 'L', 'M', 'N', 'O', 'P', 'Q', 'R', 'S', 'T', 'U',
     'V', 'W', 'X', 'Y', 'Z'}
  const DIGITS := {'0', '1', '2', '3', '4', '5', '6', '7', '8', '9'}
  const TYPE_WORDS :=
    {"void", "char", "signed", "unsigned", "short", "int", "long", "float", "double", "struct", "union", "enum"}

  predicate Listed(c: char) {
    c in SMALL_LETTERS || c in CAPITAL_LETTERS || c in DIGITS
  }

  predicate ListedWord(w: string) {
    w != "" && forall i :: 0 <= i < |w| ==> Listed(w[i])
  }

  lemma SmallLetterListed(c: char)
    ensures c in SMALL_LETTERS <==> 'a' <= c <= 'z'
  {
  }

  lemma CapitalLetterListed(c: char)
    ensures c in CAPITAL_LETTERS <==> 'A' <= c <= 'Z'
  {
  }

  lemma DigitListed(c: char)
    ensures c in DIGITS <==> '0' <= c <= '9'
  {
  }

  lemma AlnumListed(c: char)
    ensures IsAlnum(c) <==> Listed(c)
  {
    SmallLetterListed(c);
    CapitalLetterListed(c);
    DigitListed(c);
  }

  function Blanks(k: nat): string {
    seq(k, _ => ' ')
  }

  lemma {:induction false} BlanksSkipped(k: nat, s: string)
    requires s != "" ==> s[0] != ' '
    ensures SkipBlanks(Blanks(k) + s) == s
    decreases k
  {
    if k == 0 {
      assert Blanks(0) + s == s;
    } else {
      assert (Blanks(k) + s)[1..] == Blanks(k - 1) + s;
      BlanksSkipped(k - 1, s);
    }
  }

  // Nothing is left of blanks alone.
  lemma BlanksOnly(k: nat)
    ensures Tokens(Blanks(k)) == []
  {
    BlanksSkipped(k, "");
    Empty(Blanks(k));
    TokensOf(Blanks(k));
  }

  lemma BlanksCut(k: nat, s: string)
    requires s != "" && s[0] != ' '
    ensures Tokens(Blanks(k) + s) == [FirstToken(s).0] + Tokens(FirstToken(s).1)
  {
    BlanksSkipped(k, s);
    TokensOf(Blanks(k) + s);
  }

  // The token of a word.
  function WordToken(w: string): Token {
    Token(if w == "const" || w == "volatile" then QUALIFIER else if w in TYPE_WORDS then TYPE else IDENTIFIER,
          if w == "const" then "readonly" else w)
  }

  lemma ClassByList(w: string)
    ensures Classify(w) == WordToken(w)
  {
  }

  // Behind any blanks a word of listed characters, in front of anything that is not
  // one, is one token, and the rest is left.
  lemma WordCut(k: nat, w: string, tail: string)
    requires ListedWord(w) && (tail != "" ==> !Listed(tail[0]))
    ensures FirstToken(w + tail) == (WordToken(w), tail)
    ensures Tokens(Blanks(k) + w + tail) == [WordToken(w)] + Tokens(tail)
  {
    var s := w + tail;
    forall i | 0 <= i < |w|
      ensures IsAlnum(w[i])
    {
      AlnumListed(w[i]);
    }
    if tail != "" { AlnumListed(tail[0]); }
    assert s[0] == w[0];
    WordLengthExact(w, tail);
    assert s[..|w|] == w && s[|w|..] == tail;
    ClassByList(w);
    BlanksCut(k, s);
    Assoc(Blanks(k), w, tail);
  }

  // Every other character but a blank is a token of its own, of which a NUL leaves no
  // text.
  lemma CharCut(k: nat, c: char, tail: string)
    requires !Listed(c) && c != ' '
    ensures var t := Token(c, if c as int == 0 then "" else [c]);
      FirstToken([c] + tail) == (t, tail) && Tokens(Blanks(k) + [c] + tail) == [t] + Tokens(tail)
  {
    var s := [c] + tail;
    AlnumListed(c);
    assert s[1..] == tail;
    BlanksCut(k, s);
    Assoc(Blanks(k), [c], tail);
  }
}
