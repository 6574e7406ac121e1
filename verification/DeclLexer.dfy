// The tokens of a C declaration: how they are cut from the input text, and how
// text that spells given tokens is cut back into them.
module DeclLexer {
  import opened Sequences

  // `kind` is one of the three word classes, or the character itself for a token
  // of one character.
  datatype Token = Token(kind: char, text: string)

  const IDENTIFIER: char := 0 as char
  const QUALIFIER: char := 1 as char
  const TYPE: char := 2 as char

  const NUL: char := 0 as char

  // What getchar yields at the end of the input, squeezed into a char.
  const EOF: char := 255 as char
  const END_OF_INPUT := Token(EOF, [EOF])

  predicate IsAlnum(c: char) {
    'a' <= c <= 'z' || 'A' <= c <= 'Z' || '0' <= c <= '9'
  }

  predicate IsWord(w: string) {
    |w| > 0 && forall i :: 0 <= i < |w| ==> IsAlnum(w[i])
  }

  predicate IsTypeWord(w: string) {
    || w == "void" || w == "char" || w == "signed" || w == "unsigned" || w == "short" || w == "int"
    || w == "long" || w == "float" || w == "double" || w == "struct" || w == "union" || w == "enum"
  }

  // The class of a word; const is renamed on the way.
  function Classify(w: string): Token {
    if w == "const" then Token(QUALIFIER, "readonly")
    else if w == "volatile" then Token(QUALIFIER, w)
    else if IsTypeWord(w) then Token(TYPE, w)
    else Token(IDENTIFIER, w)
  }

  // Any other character is its own class; a NUL ends the text it is put in.
  function CharToken(c: char): Token {
    Token(c, if c == NUL then "" else [c])
  }

  function SkipBlanks(s: string): (r: string)
    ensures |r| <= |s| && (r != "" ==> r[0] != ' ')
  {
    if s != "" && s[0] == ' ' then SkipBlanks(s[1..]) else s
  }

  // The length of the word s starts with.
  function WordLength(s: string): (n: nat)
    ensures n <= |s|
  {
    if s != "" && IsAlnum(s[0]) then 1 + WordLength(s[1..]) else 0
  }

  lemma WordLengthStep(s: string)
    requires s != "" && IsAlnum(s[0])
    ensures WordLength(s) == 1 + WordLength(s[1..])
  {
  }

  lemma WordLengthEnds(s: string)
    requires s == "" || !IsAlnum(s[0])
    ensures WordLength(s) == 0
  {
  }

  // The token s starts with and the text after it; s starts with no blank.
  function FirstToken(s: string): (r: (Token, string))
    requires s != ""
    ensures |r.1| < |s|
  {
    if IsAlnum(s[0]) then (Classify(s[..WordLength(s)]), s[WordLength(s)..])
    else (CharToken(s[0]), s[1..])
  }

  // All tokens of a text.
  function Tokens(s: string): (ts: seq<Token>)
    decreases |s|
  {
    var b := SkipBlanks(s);
    if b == "" then [] else [FirstToken(b).0] + Tokens(FirstToken(b).1)
  }

  lemma TokensOf(s: string)
    ensures var b := SkipBlanks(s);
      if b == "" then Tokens(s) == []
      else Tokens(s) != [] && Tokens(s)[0] == FirstToken(b).0 && Tokens(s)[1..] == Tokens(FirstToken(b).1)
    ensures Tokens("") == []
  {
  }

  // ---------------------------------------------------------------------------
  // Spelling tokens
  // ---------------------------------------------------------------------------

  // Tokens the lexer can produce from text.
  predicate Spellable(t: Token) {
    if t.kind == QUALIFIER then t.text == "readonly" || t.text == "volatile"
    else if IsWord(t.text) then Classify(t.text) == t
    else t.text == [t.kind] && t.kind != ' ' && t.kind != NUL
  }

  function Spelling(t: Token): string {
    if t.kind == QUALIFIER && t.text == "readonly" then "const" else t.text
  }

  function Spell(ts: seq<Token>): string {
    if ts == [] then "" else " " + Spelling(ts[0]) + Spell(ts[1..])
  }

  // A word goes on as far as it can.
  lemma {:induction false} WordLengthMaximal(s: string)
    ensures var n := WordLength(s);
      (forall i :: 0 <= i < n ==> IsAlnum(s[i])) && (n < |s| ==> !IsAlnum(s[n]))
    decreases |s|
  {
    if s != "" && IsAlnum(s[0]) {
      WordLengthMaximal(s[1..]);
      var n := WordLength(s);
      forall i | 0 <= i < n
        ensures IsAlnum(s[i])
      {
        if i > 0 { assert s[i] == s[1..][i - 1]; }
      }
      if n < |s| { assert s[n] == s[1..][n - 1]; }
    }
  }

  lemma WordLengthExact(w: string, tail: string)
    requires forall i :: 0 <= i < |w| ==> IsAlnum(w[i])
    requires tail != "" ==> !IsAlnum(tail[0])
    ensures WordLength(w + tail) == |w|
  {
    WordLengthMaximal(w + tail);
    assert forall i :: 0 <= i < |w| ==> (w + tail)[i] == w[i];
    assert tail != "" ==> (w + tail)[|w|] == tail[0];
  }

  lemma BlankFirst(s: string)
    requires s != "" && s[0] != ' '
    ensures Tokens(" " + s) == [FirstToken(s).0] + Tokens(FirstToken(s).1)
  {
    assert (" " + s)[1..] == s;
    assert SkipBlanks(" " + s) == SkipBlanks(s) == s;
  }

  lemma WordSpelled(w: string, tail: string)
    requires IsWord(w)
    requires tail != "" ==> !IsAlnum(tail[0])
    ensures Tokens(" " + w + tail) == [Classify(w)] + Tokens(tail)
  {
    var s := w + tail;
    assert " " + w + tail == " " + s;
    WordLengthExact(w, tail);
    assert s[..|w|] == w && s[|w|..] == tail;
    BlankFirst(s);
  }

  lemma CharSpelled(c: char, tail: string)
    requires !IsAlnum(c) && c != ' '
    ensures Tokens(" " + [c] + tail) == [CharToken(c)] + Tokens(tail)
  {
    var s := [c] + tail;
    assert " " + [c] + tail == " " + s;
    assert s[1..] == tail;
    BlankFirst(s);
  }

  // What spells a token is a word of its class, or its character.
  lemma SpellingOf(t: Token)
    requires Spellable(t)
    ensures if IsWord(Spelling(t)) then Classify(Spelling(t)) == t
            else !IsAlnum(t.kind) && t.kind != ' ' && Spelling(t) == [t.kind] && t == CharToken(t.kind)
  {
    if !IsWord(Spelling(t)) { assert !IsAlnum(t.text[0]); }
  }

  lemma FirstTokenSpelled(t: Token, tail: string)
    requires Spellable(t)
    requires tail != "" ==> !IsAlnum(tail[0])
    ensures Tokens(" " + Spelling(t) + tail) == [t] + Tokens(tail)
  {
    SpellingOf(t);
    if IsWord(Spelling(t)) {
      WordSpelled(Spelling(t), tail);
    } else {
      CharSpelled(t.kind, tail);
    }
  }

  lemma SpellStartsBlank(ts: seq<Token>, tail: string)
    requires tail != "" ==> !IsAlnum(tail[0])
    ensures Spell(ts) + tail != "" ==> !IsAlnum((Spell(ts) + tail)[0])
  {
    if ts == [] {
      assert Spell(ts) + tail == tail;
    } else {
      assert (Spell(ts) + tail)[0] == ' ';
    }
  }

  lemma SpellFirst(ts: seq<Token>, tail: string)
    requires ts != [] && Spellable(ts[0])
    requires tail != "" ==> !IsAlnum(tail[0])
    ensures Tokens(Spell(ts) + tail) == [ts[0]] + Tokens(Spell(ts[1..]) + tail)
  {
    SpellStartsBlank(ts[1..], tail);
    FirstTokenSpelled(ts[0], Spell(ts[1..]) + tail);
    Assoc(" " + Spelling(ts[0]), Spell(ts[1..]), tail);
  }

  lemma FirstAndRest(ts: seq<Token>, more: seq<Token>)
    requires ts != []
    ensures [ts[0]] + (ts[1..] + more) == ts + more
  {
  }

  // Cutting spelled tokens gives the tokens back.
  lemma {:induction false} SpellTokens(ts: seq<Token>, tail: string)
    requires forall i :: 0 <= i < |ts| ==> Spellable(ts[i])
    requires tail != "" ==> !IsAlnum(tail[0])
    ensures Tokens(Spell(ts) + tail) == ts + Tokens(tail)
    decreases |ts|
  {
    if ts == [] {
      assert Spell(ts) + tail == tail;
    } else {
      SpellFirst(ts, tail);
      SpellTokens(ts[1..], tail);
      FirstAndRest(ts, Tokens(tail));
    }
  }
}
