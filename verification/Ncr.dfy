// Decimal character references, "&#1223;" (section 5.3.1 of HTML 4.01): reading one,
// and turning whole strings from UTF-8 into references and back.
module Ncr {
  import opened Utf8
  import opened Utf8Text
  import opened Sequences
  import opened Buffers
  import Decimal

  const NUL: char := 0 as char
  const INT_MAX: nat := 0x7FFF_FFFF
  type int32 = x: int | -0x8000_0000 <= x <= 0x7FFF_FFFF

  // Memory from some address on, up to a terminator.
  predicate Ended(s: string) {
    s != "" && s[|s| - 1] == NUL
  }

  lemma EndedTail(s: string, k: nat)
    requires Ended(s) && k <= |s| && forall i :: 0 <= i < k ==> s[i] != NUL
    ensures k < |s| && Ended(s[k..])
  {
  }

  // ---------------------------------------------------------------------------
  // One reference
  // ---------------------------------------------------------------------------

  // Where the first semicolon is, before the end of the string; -1 if nowhere.
  function Semicolon(s: string): (e: int)
    requires Ended(s)
    ensures -1 <= e < |s|
    ensures e >= 0 ==> s[e] == ';' && forall i :: 0 <= i < e ==> s[i] != ';' && s[i] != NUL
  {
    if s[0] == NUL then -1
    else if s[0] == ';' then 0
    else
      EndedTail(s, 1);
      var e := Semicolon(s[1..]);
      assert s == [s[0]] + s[1..];
      if e < 0 then -1 else e + 1
  }

  predicate Opens(s: string)
    requires Ended(s)
  {
    s[0] == '&' && (EndedTail(s, 1); s[1] == '#')
  }

  lemma OpenBeforeEnd(s: string)
    requires Ended(s) && Opens(s) && Semicolon(s) >= 0
    ensures Semicolon(s) >= 2
  {
  }

  // The digits between the opening and the semicolon.
  function Digits(s: string): string
    requires Ended(s) && Opens(s) && Semicolon(s) >= 0
  {
    OpenBeforeEnd(s);
    s[2..Semicolon(s)]
  }

  // The number of the reference s starts with; -1 if there is none or it does not
  // fit 31 bits.
  function Reference(s: string): (r: int)
    requires Ended(s)
    ensures -1 <= r <= INT_MAX
  {
    if Opens(s) && Semicolon(s) >= 0 && Decimal.AllDigits(Digits(s)) && Decimal.Value(Digits(s)) <= INT_MAX
    then Decimal.Value(Digits(s))
    else -1
  }

  method FindSemicolon(mem: string, p: nat) returns (e: int)
    requires p <= |mem| && Ended(mem[p..])
    ensures e == Semicolon(mem[p..])
  {
    var i := p;
    ghost var s := mem[p..];
    assert s[0..] == s;
    while mem[i] != NUL && mem[i] != ';'
      invariant p <= i < |mem| && Ended(mem[i..])
      invariant Semicolon(s) == if Semicolon(mem[i..]) < 0 then -1 else Semicolon(mem[i..]) + (i - p)
      decreases |mem| - i
    {
      ghost var rest := mem[i..];
      assert rest[0] == mem[i];
      EndedTail(rest, 1);
      assert rest[1..] == mem[i + 1..];
      i := i + 1;
    }
    assert mem[i..][0] == mem[i];
    e := if mem[i] == ';' then i - p else -1;
  }

  predicate TooLarge(v: nat, c: char) {
    v > INT_MAX / 10 || (v == INT_MAX / 10 && c >= '8')
  }

  // The guard before the next digit is exact: it fails exactly if the number would
  // leave 31 bits, and then no further digit can bring it back.
  lemma DigitStep(ds: string, k: nat)
    requires k < |ds| && Decimal.AllDigits(ds[..k + 1])
    ensures Decimal.AllDigits(ds[..k])
    ensures Decimal.Value(ds[..k + 1]) == 10 * Decimal.Value(ds[..k]) + Decimal.DigitValue(ds[k])
    ensures TooLarge(Decimal.Value(ds[..k]), ds[k]) <==> Decimal.Value(ds[..k + 1]) > INT_MAX
    ensures Decimal.AllDigits(ds) ==> Decimal.Value(ds[..k + 1]) <= Decimal.Value(ds)
  {
    assert ds[..k + 1][..k] == ds[..k] && ds[..k + 1][k] == ds[k];
    if Decimal.AllDigits(ds) { Decimal.ValueMonotone(ds, k + 1); }
  }

  // next is the index after the semicolon.
  method AnalizeNcrCharacter(mem: string, p: nat) returns (ret: int32, next: nat)
    requires p <= |mem| && Ended(mem[p..])
    ensures ret == Reference(mem[p..])
    ensures ret >= 0 ==> next == p + Semicolon(mem[p..]) + 1
  {
    ghost var s := mem[p..];
    next := p;
    var end := FindSemicolon(mem, p);
    if mem[p] != '&' {
      return -1, next;
    }
    EndedTail(s, 1);
    if mem[p + 1] != '#' || end < 0 {
      return -1, next;
    }
    OpenBeforeEnd(s);
    ghost var ds := Digits(s);
    ret := 0;
    var i := 2;
    assert ds[..0] == "";
    while i < end
      invariant 2 <= i <= end
      invariant Decimal.AllDigits(ds[..i - 2]) && ret == Decimal.Value(ds[..i - 2])
    {
      var c := mem[p + i];
      assert c == ds[i - 2];
      if !Decimal.IsDigit(c) {
        return -1, next;
      }
      DigitStep(ds, i - 2);
      if ret > INT_MAX / 10 || (ret == INT_MAX / 10 && c >= '8') {
        return -1, next;
      }
      ret := ret * 10 + Decimal.DigitValue(c);
      i := i + 1;
    }
    assert ds[..end - 2] == ds;
    next := p + end + 1;
  }

  // ---------------------------------------------------------------------------
  // Whole strings
  // ---------------------------------------------------------------------------

  // What printf writes for "&#%d;".
  function Written(u: nat): (t: string) {
    "&#" + Decimal.Print(u) + ";"
  }

  lemma WrittenShort(u: nat)
    requires u <= INT_MAX
    ensures |Written(u)| <= 13
  {
    assert Decimal.Power10(10) == 10000000000;
    Decimal.PrintLength(u, 10, Decimal.Power10(10));
  }

  lemma SemicolonAfterDigits(ds: string, tail: string)
    requires Decimal.AllDigits(ds) && Ended(tail)
    ensures var s := "&#" + ds + ";" + tail;
      && Ended(s) && s[0] == '&' && s[1] == '#' && s[2..|ds| + 2] == ds
      && Semicolon(s) == |ds| + 2 && s[|ds| + 3..] == tail
  {
    var s := "&#" + ds + ";" + tail;
    var e := |ds| + 2;
    assert s[e] == ';';
    forall i | 0 <= i < e
      ensures s[i] != ';' && s[i] != NUL
    {
      if i >= 2 { assert s[i] == ds[i - 2] && Decimal.IsDigit(ds[i - 2]); }
    }
    FirstSemicolon(s, e);
  }

  // Any digit string between the marks is read as its value if that fits 31 bits,
  // and as -1 otherwise, and the text goes on behind it.
  lemma DigitsRead(ds: string, tail: string)
    requires Decimal.AllDigits(ds) && Ended(tail)
    ensures var s := "&#" + ds + ";" + tail;
      && Ended(s) && s[0] != NUL
      && Reference(s) == (if Decimal.Value(ds) <= INT_MAX then Decimal.Value(ds) else -1)
      && Semicolon(s) == |ds| + 2 && s[Semicolon(s) + 1..] == tail
  {
    SemicolonAfterDigits(ds, tail);
  }

  // A written reference reads back as its number.
  lemma WrittenReads(u: nat, tail: string)
    requires u <= INT_MAX && Ended(tail)
    ensures var s := Written(u) + tail;
      && Ended(s) && s[0] != NUL && Reference(s) == u
      && Semicolon(s) == |Written(u)| - 1 && s[Semicolon(s) + 1..] == tail
  {
    DigitsRead(Decimal.Print(u), tail);
    Decimal.PrintValue(u);
  }

  lemma {:induction false} FirstSemicolon(s: string, e: nat)
    requires Ended(s) && e < |s| && s[e] == ';' && forall i :: 0 <= i < e ==> s[i] != ';' && s[i] != NUL
    ensures Semicolon(s) == e
    decreases e
  {
    if e > 0 {
      EndedTail(s, 1);
      FirstSemicolon(s[1..], e - 1);
    }
  }

  // -2 for a byte that starts no character, -3 for a full buffer.
  function ToReferences(s: seq<byte>, out: string, len: nat): (r: Outcome<char>)
    requires Terminated(s)
    ensures |out| <= len ==> |r.out| <= len
    decreases |s|
  {
    if s[0] == 0 then Outcome(|out|, out)
    else if Length(s) == 0 then Outcome(-2, out)
    else
      var t := Written(Value(s[..Length(s)]));
      if |out| + |t| >= len then Outcome(-3, out)
      else
        AfterCharacter(s);
        ToReferences(s[Length(s)..], out + t, len)
  }

  // -2 for what is no reference, -3 for a full buffer.
  function ToUtf8(s: string, out: seq<byte>, len: nat): (r: Outcome<byte>)
    requires Ended(s)
    ensures |out| <= len ==> |r.out| <= len
    decreases |s|
  {
    if s[0] == NUL then Outcome(|out|, out)
    else if Reference(s) < 0 then Outcome(-2, out)
    else
      var w := Encode(Reference(s));
      if |out| + |w| > len then Outcome(-3, out)
      else
        AfterReference(s);
        ToUtf8(s[Semicolon(s) + 1..], out + w, len)
  }

  lemma AfterReference(s: string)
    requires Ended(s) && Reference(s) >= 0
    ensures Semicolon(s) >= 0 && Ended(s[Semicolon(s) + 1..])
  {
    var e := Semicolon(s);
    assert s[e] == ';';
    EndedTail(s, e + 1);
  }

  function References(us: seq<word>): string {
    if us == [] then "" else Written(us[0]) + References(us[1..])
  }

  // One character in front of a text.
  lemma ToReferencesStep(u: word, more: seq<byte>, out: string, len: nat)
    requires 1 <= u <= 0x1FFFFF && Terminated(more)
    ensures var s := Encode(u) + more;
      && Terminated(s)
      && ToReferences(s, out, len) ==
         if |out| + |Written(u)| >= len then Outcome(-3, out) else ToReferences(more, out + Written(u), len)
  {
    EncodeIsWord(u);
    WordLength(Encode(u), more);
    ValueOfEncode(u);
    assert (Encode(u) + more)[0] == Encode(u)[0];
  }

  lemma ToUtf8Step(u: word, more: string, out: seq<byte>, len: nat)
    requires 1 <= u <= 0x1FFFFF && Ended(more)
    ensures var s := Written(u) + more;
      && Ended(s)
      && ToUtf8(s, out, len) ==
         if |out| + |Encode(u)| > len then Outcome(-3, out) else ToUtf8(more, out + Encode(u), len)
  {
    WrittenReads(u, more);
  }

  lemma EncodedTerminated(us: seq<word>)
    ensures Terminated(EncodeAll(us) + [0]) && Ended(References(us) + [NUL])
  {
    assert (EncodeAll(us) + [0])[|EncodeAll(us)|] == 0;
    assert (References(us) + [NUL])[|References(us)|] == NUL;
  }

  // Encoded code points become their references, whenever the buffer has room for
  // them and the terminator; otherwise the result is -3.
  lemma {:induction false} EncodedToReferences(us: seq<word>, out: string, len: nat)
    requires CodePoints(us) && |out| <= len
    ensures Terminated(EncodeAll(us) + [0])
    ensures var r := ToReferences(EncodeAll(us) + [0], out, len);
      if us == [] || |out| + |References(us)| < len
      then r == Outcome(|out| + |References(us)|, out + References(us)) else r.code == -3
    decreases |us|
  {
    EncodedTerminated(us);
    if us == [] {
      Empty([0]);
      Empty(out);
    } else {
      var t, rest := Written(us[0]), us[1..];
      EncodingsFirst(us);
      Assoc(Encode(us[0]), EncodeAll(rest), [0]);
      EncodedTerminated(rest);
      ToReferencesStep(us[0], EncodeAll(rest) + [0], out, len);
      if |out| + |t| < len {
        EncodedToReferences(rest, out + t, len);
        Assoc(out, t, References(rest));
      }
    }
  }

  // References of code points become their encodings, likewise.
  lemma {:induction false} ReferencesToEncoded(us: seq<word>, out: seq<byte>, len: nat)
    requires CodePoints(us) && |out| <= len
    ensures Ended(References(us) + [NUL])
    ensures var r := ToUtf8(References(us) + [NUL], out, len);
      if |out| + |EncodeAll(us)| <= len
      then r == Outcome(|out| + |EncodeAll(us)|, out + EncodeAll(us)) else r.code == -3
    decreases |us|
  {
    EncodedTerminated(us);
    if us == [] {
      Empty([NUL]);
      Empty(out);
    } else {
      var w, rest := Encode(us[0]), us[1..];
      EncodingsFirst(us);
      Assoc(Written(us[0]), References(rest), [NUL]);
      EncodedTerminated(rest);
      ToUtf8Step(us[0], References(rest) + [NUL], out, len);
      if |out| + |w| <= len {
        ReferencesToEncoded(rest, out + w, len);
        Assoc(out, w, EncodeAll(rest));
      }
    }
  }

  lemma RoundTripOfReferences(us: seq<word>, len: nat, refLen: nat)
    requires CodePoints(us) && |References(us)| < refLen && |EncodeAll(us)| <= len
    ensures Ended(References(us) + [NUL]) && Terminated(EncodeAll(us) + [0])
    ensures ToUtf8(References(us) + [NUL], [], len) == Outcome(|EncodeAll(us)|, EncodeAll(us))
    ensures ToReferences(EncodeAll(us) + [0], "", refLen) == Outcome(|References(us)|, References(us))
  {
    ReferencesToEncoded(us, [], len);
    EncodedToReferences(us, "", refLen);
    Empty(EncodeAll(us));
    Empty(References(us));
  }

  // UTF-8 to references and back is the identity, for buffers with room.
  lemma RoundTripFromUtf8(us: seq<word>, refLen: nat, len: nat)
    requires CodePoints(us) && |References(us)| < refLen && |EncodeAll(us)| <= len
    ensures var text := EncodeAll(us);
      var r := ToReferences(text + [0], "", refLen);
      r.code == |r.out| && Ended(r.out + [NUL]) && ToUtf8(r.out + [NUL], [], len) == Outcome(|text|, text)
  {
    RoundTripOfReferences(us, len, refLen);
  }

  // Texts of canonical references: the digits of every one as printf writes them.
  predicate CanonicalReferences(ds: seq<string>) {
    forall i :: 0 <= i < |ds| ==> Decimal.Canonical(ds[i]) && 1 <= Decimal.Value(ds[i]) <= 0x1FFFFF
  }

  function ReferenceText(ds: seq<string>): string {
    if ds == [] then "" else "&#" + ds[0] + ";" + ReferenceText(ds[1..])
  }

  function Numbers(ds: seq<string>): (us: seq<word>)
    requires CanonicalReferences(ds)
    ensures |us| == |ds| && CodePoints(us)
  {
    seq(|ds|, i requires 0 <= i < |ds| => Decimal.Value(ds[i]))
  }

  lemma {:induction false} CanonicalText(ds: seq<string>)
    requires CanonicalReferences(ds)
    ensures ReferenceText(ds) == References(Numbers(ds))
    decreases |ds|
  {
    if ds != [] {
      CanonicalText(ds[1..]);
      Decimal.ValuePrint(ds[0]);
      assert Numbers(ds)[1..] == Numbers(ds[1..]);
    }
  }

  // Canonical references to UTF-8 and back is the identity too.
  lemma RoundTripFromReferences(ds: seq<string>, len: nat, refLen: nat)
    requires CanonicalReferences(ds)
    requires |ReferenceText(ds)| < refLen && |EncodeAll(Numbers(ds))| <= len
    ensures var text := ReferenceText(ds);
      && Ended(text + [NUL])
      && var r := ToUtf8(text + [NUL], [], len);
      r.code == |r.out| && Terminated(r.out + [0]) && ToReferences(r.out + [0], "", refLen) == Outcome(|text|, text)
  {
    CanonicalText(ds);
    RoundTripOfReferences(Numbers(ds), len, refLen);
  }
}
