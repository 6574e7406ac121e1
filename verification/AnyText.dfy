// What the converters make of any text in memory, well-formed or not: it is cut into
// characters, some of them cut short, up to its end or to a byte that starts none.
module AnyText {
  import opened Buffers
  import opened Ncr
  import opened Sequences
  import opened Units
  import opened Utf8
  import opened Utf8Text
  import Decimal

  // ---------------------------------------------------------------------------
  // The characters of a text
  // ---------------------------------------------------------------------------

  // A head with some of the bytes it announces.
  predicate Partial(w: seq<byte>) {
    w != [] && w[0] != 0 && |w| <= Head(w[0]) && forall i :: 1 <= i < |w| ==> Continues(w[i])
  }

  // s starts with the characters ws, of which each has all its bytes that are
  // there, and goes on with rest.
  predicate CutInto(s: seq<byte>, ws: seq<seq<byte>>, rest: seq<byte>)
    decreases |ws|
  {
    if ws == [] then s == rest else Starts(s, ws[0]) && CutInto(s[|ws[0]|..], ws[1..], rest)
  }

  predicate Starts(s: seq<byte>, w: seq<byte>) {
    Partial(w) && w < s && (|w| < Head(w[0]) ==> !Continues(s[|w|]))
  }

  lemma CharacterInFront(s: seq<byte>, w: seq<byte>)
    requires Terminated(s) && Starts(s, w)
    ensures s[0] != 0 && Length(s) == |w| > 0 && s[..Length(s)] == w && Terminated(s[Length(s)..])
  {
    assert forall i :: 0 <= i < |w| ==> s[i] == w[i];
  }

  // Every text is cut so, to its end or to a stray continuation byte.
  lemma {:induction false} EveryTextCut(s: seq<byte>) returns (ws: seq<seq<byte>>, rest: seq<byte>)
    requires Terminated(s)
    ensures CutInto(s, ws, rest) && Terminated(rest) && (rest[0] == 0 || Continues(rest[0]))
    decreases |s|
  {
    if s[0] == 0 || Length(s) == 0 {
      ws, rest := [], s;
    } else {
      AfterCharacter(s);
      var w := s[..Length(s)];
      ws, rest := EveryTextCut(s[|w|..]);
      assert Partial(w);
      ws := [w] + ws;
    }
  }

  predicate Partials(ws: seq<seq<byte>>) {
    forall w :: w in ws ==> Partial(w)
  }

  lemma {:induction false} CutsArePartial(s: seq<byte>, ws: seq<seq<byte>>, rest: seq<byte>)
    requires CutInto(s, ws, rest)
    ensures Partials(ws)
    decreases |ws|
  {
    if ws != [] {
      CutsArePartial(s[|ws[0]|..], ws[1..], rest);
    }
  }

  // The numbers of the characters.
  function Codes(ws: seq<seq<byte>>): (us: seq<word>)
    requires Partials(ws)
    ensures |us| == |ws|
  {
    if ws == [] then []
    else
      assert ws[0] in ws;
      [Value(ws[0])] + Codes(ws[1..])
  }

  // ---------------------------------------------------------------------------
  // To character references
  // ---------------------------------------------------------------------------

  lemma {:induction false} ReferencesTaken(s: seq<byte>, ws: seq<seq<byte>>, rest: seq<byte>, out: string, len: nat)
    requires Terminated(s) && CutInto(s, ws, rest) && Partials(ws)
    requires ws == [] || |out| + |References(Codes(ws))| < len
    ensures Terminated(rest)
    ensures ToReferences(s, out, len) == ToReferences(rest, out + References(Codes(ws)), len)
    decreases |ws|
  {
    if ws == [] {
      Empty(out);
    } else {
      var t := Written(Value(ws[0]));
      CharacterInFront(s, ws[0]);
      ReferencesTaken(s[|ws[0]|..], ws[1..], rest, out + t, len);
      Assoc(out, t, References(Codes(ws[1..])));
    }
  }

  lemma ReferencesEnd(rest: seq<byte>, out: string, len: nat)
    requires Terminated(rest)
    ensures rest[0] == 0 ==> ToReferences(rest, out, len) == Outcome(|out|, out)
    ensures Continues(rest[0]) ==> ToReferences(rest, out, len) == Outcome(-2, out)
    ensures var n := Length(rest);
      rest[0] != 0 && n > 0 && |out| + |Written(Value(rest[..n]))| >= len ==>
        ToReferences(rest, out, len) == Outcome(-3, out)
  {
  }

  // As long as there is room, every character becomes its reference; at the end
  // the result is the length, at a stray continuation byte -2, and at the first
  // character without room -3.
  lemma AnyTextToReferences(s: seq<byte>, ws: seq<seq<byte>>, rest: seq<byte>, len: nat)
    requires Terminated(s) && CutInto(s, ws, rest) && Partials(ws)
    requires ws == [] || |References(Codes(ws))| < len
    ensures Terminated(rest)
    ensures var r, out := ToReferences(s, "", len), References(Codes(ws));
      && (rest[0] == 0 ==> r == Outcome(|out|, out))
      && (Continues(rest[0]) ==> r == Outcome(-2, out))
      && (var n := Length(rest);
          rest[0] != 0 && n > 0 && |out| + |Written(Value(rest[..n]))| >= len ==> r == Outcome(-3, out))
  {
    ReferencesTaken(s, ws, rest, "", len);
    Empty(References(Codes(ws)));
    ReferencesEnd(rest, References(Codes(ws)), len);
  }

  // ---------------------------------------------------------------------------
  // To two-byte units
  // ---------------------------------------------------------------------------

  // A character takes two bytes but asks for as many as it has in UTF-8.
  predicate RoomForUnits(ws: seq<seq<byte>>, at: nat, len: nat) {
    forall i :: 0 <= i < |ws| ==> at + 2 * i + |ws[i]| <= len
  }

  lemma RoomForFirst(ws: seq<seq<byte>>, at: nat, len: nat)
    requires ws != [] && RoomForUnits(ws, at, len)
    ensures at + |ws[0]| <= len && RoomForUnits(ws[1..], at + 2, len)
  {
    forall i | 0 <= i < |ws[1..]|
      ensures at + 2 + 2 * i + |ws[1..][i]| <= len
    {
      assert at + 2 * (i + 1) + |ws[i + 1]| <= len;
    }
  }

  lemma {:induction false} UnitsTaken(s: seq<byte>, ws: seq<seq<byte>>, rest: seq<byte>, out: seq<byte>, len: nat)
    requires Terminated(s) && CutInto(s, ws, rest) && Partials(ws) && RoomForUnits(ws, |out|, len)
    ensures Terminated(rest)
    ensures ToUnits(s, out, len) == ToUnits(rest, out + UnitsOf(Codes(ws)), len)
    decreases |ws|
  {
    if ws == [] {
      Empty(out);
    } else {
      var t := Unit(Value(ws[0]));
      CharacterInFront(s, ws[0]);
      RoomForFirst(ws, |out|, len);
      UnitsTaken(s[|ws[0]|..], ws[1..], rest, out + t, len);
      Assoc(out, t, UnitsOf(Codes(ws[1..])));
    }
  }

  lemma UnitsEnd(rest: seq<byte>, out: seq<byte>, len: nat)
    requires Terminated(rest)
    ensures rest[0] == 0 ==> ToUnits(rest, out, len) == Outcome(|out|, out)
    ensures rest[0] != 0 && (Continues(rest[0]) || |out| + Length(rest) > len) ==>
      ToUnits(rest, out, len) == Outcome(-2, out)
  {
  }

  // As long as there is room, every character becomes its unit; at the end the
  // result is the length, at a stray continuation byte or without room -2.
  lemma AnyTextToUnits(s: seq<byte>, ws: seq<seq<byte>>, rest: seq<byte>, len: nat)
    requires Terminated(s) && CutInto(s, ws, rest) && Partials(ws) && RoomForUnits(ws, 0, len)
    ensures Terminated(rest)
    ensures var r, out := ToUnits(s, [], len), UnitsOf(Codes(ws));
      && (rest[0] == 0 ==> r == Outcome(|out|, out))
      && (Continues(rest[0]) ==> r == Outcome(-2, out))
      && (rest[0] != 0 && |out| + Length(rest) > len ==> r == Outcome(-2, out))
  {
    UnitsTaken(s, ws, rest, [], len);
    Empty(UnitsOf(Codes(ws)));
    UnitsEnd(rest, UnitsOf(Codes(ws)), len);
  }

  // ---------------------------------------------------------------------------
  // From two-byte units
  // ---------------------------------------------------------------------------

  lemma UnitTaken(u: word, more: seq<byte>, out: seq<byte>, len: nat)
    requires u <= 0xFFFF
    ensures var w := Encode(u);
      FromUnits(Unit(u) + more, out, len) ==
        if |out| + |w| > len then Outcome(-3, out) else FromUnits(more, out + w, len)
  {
    UnitReads(u);
    assert (Unit(u) + more)[2..] == more;
  }

  lemma {:induction false} UnitsTakenBack(us: seq<word>, more: seq<byte>, out: seq<byte>, len: nat)
    requires UnitCodes(us) && |out| + |EncodeAll(us)| <= len
    ensures FromUnits(UnitsOf(us) + more, out, len) == FromUnits(more, out + EncodeAll(us), len)
    decreases |us|
  {
    if us == [] {
      Empty(more);
      Empty(out);
    } else {
      var w := Encode(us[0]);
      EncodingsFirst(us);
      Assoc(Unit(us[0]), UnitsOf(us[1..]), more);
      UnitTaken(us[0], UnitsOf(us[1..]) + more, out, len);
      UnitsTakenBack(us[1..], more, out + w, len);
      Assoc(out, w, EncodeAll(us[1..]));
    }
  }

  // As long as there is room, every unit becomes its encoding; then -3.
  lemma AnyUnits(us: seq<word>, u: word, more: seq<byte>, len: nat)
    requires UnitCodes(us) && u <= 0xFFFF && |EncodeAll(us)| <= len < |EncodeAll(us)| + |Encode(u)|
    ensures FromUnits(UnitsOf(us), [], len) == Outcome(|EncodeAll(us)|, EncodeAll(us))
    ensures FromUnits(UnitsOf(us) + (Unit(u) + more), [], len) == Outcome(-3, EncodeAll(us))
  {
    UnitsToEncoded(us, [], len);
    UnitsTakenBack(us, Unit(u) + more, [], len);
    UnitTaken(u, more, EncodeAll(us), len);
    Empty(EncodeAll(us));
  }

  // ---------------------------------------------------------------------------
  // From character references
  // ---------------------------------------------------------------------------

  // Digits of numbers that fit 31 bits, printed canonically or not.
  predicate Numerals(ds: seq<string>) {
    forall d :: d in ds ==> Decimal.AllDigits(d) && Decimal.Value(d) <= INT_MAX
  }

  function NumeralCodes(ds: seq<string>): (us: seq<word>)
    requires Numerals(ds)
    ensures |us| == |ds|
  {
    if ds == [] then []
    else
      assert ds[0] in ds;
      [Decimal.Value(ds[0])] + NumeralCodes(ds[1..])
  }

  // A text starts with a reference exactly if it has digits of such a number
  // between the marks.
  lemma ReferenceExactly(s: string)
    requires Ended(s)
    ensures Reference(s) >= 0 <==>
      exists d: string, more: string :: Ended(more) && Numerals([d]) && s == "&#" + d + ";" + more
  {
    if Reference(s) >= 0 {
      AfterReference(s);
      var d, more := Digits(s), s[Semicolon(s) + 1..];
      assert s == "&#" + d + ";" + more;
      assert Numerals([d]);
    }
    if d: string, more: string :| Ended(more) && Numerals([d]) && s == "&#" + d + ";" + more {
      assert d in [d];
      DigitsRead(d, more);
    }
  }

  lemma NumeralTaken(d: string, more: string, out: seq<byte>, len: nat)
    requires Numerals([d]) && Ended(more)
    ensures var s, w := "&#" + d + ";" + more, Encode((assert d in [d]; Decimal.Value(d)));
      && Ended(s)
      && ToUtf8(s, out, len) ==
         if |out| + |w| > len then Outcome(-3, out) else ToUtf8(more, out + w, len)
  {
    assert d in [d];
    DigitsRead(d, more);
  }

  lemma {:induction false} NumeralsTaken(ds: seq<string>, rest: string, out: seq<byte>, len: nat)
    requires Numerals(ds) && Ended(rest) && |out| + |EncodeAll(NumeralCodes(ds))| <= len
    ensures Ended(ReferenceText(ds) + rest)
    ensures ToUtf8(ReferenceText(ds) + rest, out, len) == ToUtf8(rest, out + EncodeAll(NumeralCodes(ds)), len)
    decreases |ds|
  {
    if ds == [] {
      Empty(rest);
      Empty(out);
    } else {
      var w := Encode((assert ds[0] in ds; Decimal.Value(ds[0])));
      EncodingsFirst(NumeralCodes(ds));
      Assoc("&#" + ds[0] + ";", ReferenceText(ds[1..]), rest);
      assert Numerals([ds[0]]);
      NumeralsTaken(ds[1..], rest, out + w, len);
      NumeralTaken(ds[0], ReferenceText(ds[1..]) + rest, out, len);
      Assoc(out, w, EncodeAll(NumeralCodes(ds[1..])));
    }
  }

  // As long as there is room, every reference becomes its encoding; at the end the
  // result is the length, where no reference stands -2, and at the first one
  // without room -3.
  lemma AnyReferences(ds: seq<string>, rest: string, len: nat)
    requires Numerals(ds) && Ended(rest) && |EncodeAll(NumeralCodes(ds))| <= len
    ensures Ended(ReferenceText(ds) + rest)
    ensures var r, out := ToUtf8(ReferenceText(ds) + rest, [], len), EncodeAll(NumeralCodes(ds));
      && (rest[0] == NUL ==> r == Outcome(|out|, out))
      && (rest[0] != NUL && Reference(rest) < 0 ==> r == Outcome(-2, out))
      && (Reference(rest) >= 0 && |out| + |Encode(Reference(rest))| > len ==> r == Outcome(-3, out))
  {
    NumeralsTaken(ds, rest, [], len);
    Empty(EncodeAll(NumeralCodes(ds)));
  }
}
