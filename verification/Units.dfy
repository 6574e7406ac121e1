// Strings of two-byte units, low byte first: from UTF-8 and back.
module Units {
  import opened Arithmetic
  import opened Utf8
  import opened Utf8Bits
  import opened Utf8Text
  import opened Sequences
  import opened Buffers

  // The two low bytes of a number, as they lie in memory.
  function Unit(u: nat): (r: seq<byte>)
    ensures |r| == 2
  {
    [u % 0x100, u / 0x100 % 0x100]
  }

  function UnitValue(lo: byte, hi: byte): (u: word)
    ensures u <= 0xFFFF
  {
    hi * 0x100 + lo
  }

  // The room asked for is that of the character in UTF-8; -2 if there is none, or
  // no character.
  function ToUnits(s: seq<byte>, out: seq<byte>, len: nat): (r: Outcome<byte>)
    requires Terminated(s)
    ensures |out| <= len ==> |r.out| <= len + 1
    decreases |s|
  {
    if s[0] == 0 then Outcome(|out|, out)
    else
      var n := Length(s);
      if n == 0 || |out| + n > len then Outcome(-2, out)
      else
        AfterCharacter(s);
        ToUnits(s[n..], out + Unit(Value(s[..n])), len)
  }

  function FromUnits(units: seq<byte>, out: seq<byte>, len: nat): (r: Outcome<byte>)
    ensures |out| <= len ==> |r.out| <= len
    decreases |units|
  {
    if |units| < 2 then Outcome(|out|, out)
    else
      var w := Encode(UnitValue(units[0], units[1]));
      if |out| + |w| > len then Outcome(-3, out) else FromUnits(units[2..], out + w, len)
  }

  lemma ToUnitsUnfolds(s: seq<byte>, out: seq<byte>, len: nat)
    requires Terminated(s) && s[0] != 0
    ensures var n := Length(s);
      if n == 0 || |out| + n > len then ToUnits(s, out, len) == Outcome(-2, out)
      else n < |s| && Terminated(s[n..]) && ToUnits(s, out, len) == ToUnits(s[n..], out + Unit(Value(s[..n])), len)
  {
    if Length(s) > 0 { AfterCharacter(s); }
  }

  // The lengths of the characters of s, cut short where their bytes end, up to the
  // end or a byte that starts none.
  ghost function Lengths(s: seq<byte>): seq<nat>
    requires Terminated(s)
    decreases |s|
  {
    if s[0] == 0 || Length(s) == 0 then []
    else
      AfterCharacter(s);
      [Length(s)] + Lengths(s[Length(s)..])
  }

  lemma {:induction false} ToUnitsGrows(s: seq<byte>, out: seq<byte>, len: nat)
    requires Terminated(s)
    ensures |ToUnits(s, out, len).out| >= |out|
    decreases |s|
  {
    var n := Length(s);
    if s[0] != 0 && n > 0 && |out| + n <= len {
      AfterCharacter(s);
      ToUnitsGrows(s[n..], out + Unit(Value(s[..n])), len);
    }
  }

  lemma ToUnitsTaken(s: seq<byte>, out: seq<byte>, len: nat)
    requires Terminated(s) && s[0] != 0
    ensures var n := Length(s);
      if n == 0 || |out| + n > len then ToUnits(s, out, len) == Outcome(-2, out)
      else
        && n < |s| && Terminated(s[n..])
        && ToUnits(s, out, len) == ToUnits(s[n..], out + Unit(Value(s[..n])), len)
        && |out| + 2 <= |ToUnits(s, out, len).out|
  {
    ToUnitsUnfolds(s, out, len);
    var n := Length(s);
    if 0 < n && |out| + n <= len { ToUnitsGrows(s[n..], out + Unit(Value(s[..n])), len); }
  }

  // With an odd room a character of one byte meets the last byte of it, and all
  // characters before it had room.
  ghost predicate Overruns(ns: seq<nat>, room: nat) {
    && room % 2 == 1 && room / 2 < |ns| && ns[room / 2] == 1
    && forall i :: 0 <= i < room / 2 ==> 2 * i + ns[i] <= room
  }

  // The same, one character after the other.
  predicate OverrunsInTurn(ns: seq<nat>, room: nat)
    decreases |ns|
  {
    && ns != [] && 0 < room && ns[0] <= room
    && (if room == 1 then ns[0] == 1 else OverrunsInTurn(ns[1..], room - 2))
  }

  lemma {:induction false} OverrunsInTurnExactly(ns: seq<nat>, room: nat)
    ensures OverrunsInTurn(ns, room) <==> Overruns(ns, room)
    decreases |ns|
  {
    if room >= 2 && ns != [] {
      OverrunsInTurnExactly(ns[1..], room - 2);
      OverrunsLater(ns, room);
    }
  }

  lemma OverrunsLater(ns: seq<nat>, room: nat)
    requires 2 <= room && ns != []
    ensures Overruns(ns, room) <==> ns[0] <= room && Overruns(ns[1..], room - 2)
  {
    var more := ns[1..];
    assert forall i :: 0 <= i < |more| ==> ns[i + 1] == more[i];
    if ns[0] <= room && Overruns(more, room - 2) {
      forall i | 0 <= i < room / 2
        ensures 2 * i + ns[i] <= room
      {
        if i > 0 { assert 2 * (i - 1) + more[i - 1] <= room - 2; }
      }
    }
    if Overruns(ns, room) {
      forall i | 0 <= i < room / 2 - 1
        ensures 2 * i + more[i] <= room - 2
      {
        assert 2 * (i + 1) + ns[i + 1] <= room;
      }
    }
  }

  lemma LengthsFirst(s: seq<byte>)
    requires Terminated(s) && s[0] != 0 && Length(s) > 0
    ensures Length(s) < |s| && Terminated(s[Length(s)..])
    ensures Lengths(s) != [] && Lengths(s)[0] == Length(s) && Lengths(s)[1..] == Lengths(s[Length(s)..])
  {
    AfterCharacter(s);
  }

  lemma FullUnits(s: seq<byte>, out: seq<byte>, len: nat)
    requires Terminated(s) && |out| >= len
    ensures ToUnits(s, out, len).out == out
  {
  }

  // Where the conversion of s ends at once nothing is written.
  lemma NoUnit(s: seq<byte>, out: seq<byte>, len: nat)
    requires Terminated(s) && |out| <= len && (s[0] == 0 || Length(s) == 0 || |out| + Length(s) > len)
    ensures ToUnits(s, out, len).out == out && !OverrunsInTurn(Lengths(s), len - |out|)
  {
    if s[0] != 0 && Length(s) > 0 { LengthsFirst(s); }
  }

  lemma LastUnit(s: seq<byte>, out: seq<byte>, len: nat)
    requires Terminated(s) && s[0] != 0 && Length(s) == 1 && |out| + 1 == len
    ensures |ToUnits(s, out, len).out| == len + 1 && OverrunsInTurn(Lengths(s), 1)
  {
    LengthsFirst(s);
    ToUnitsUnfolds(s, out, len);
    FullUnits(s[1..], out + Unit(Value(s[..1])), len);
  }

  lemma NextUnit(s: seq<byte>, out: seq<byte>, len: nat)
    requires Terminated(s) && s[0] != 0 && 0 < Length(s) && |out| + Length(s) <= len && |out| + 2 <= len
    ensures Length(s) < |s| && Terminated(s[Length(s)..])
    ensures ToUnits(s, out, len) == ToUnits(s[Length(s)..], out + Unit(Value(s[..Length(s)])), len)
    ensures OverrunsInTurn(Lengths(s), len - |out|) == OverrunsInTurn(Lengths(s[Length(s)..]), len - |out| - 2)
  {
    LengthsFirst(s);
    ToUnitsUnfolds(s, out, len);
  }

  lemma {:induction false} UnitsInTurn(s: seq<byte>, out: seq<byte>, len: nat)
    requires Terminated(s) && |out| <= len
    ensures |ToUnits(s, out, len).out| == len + 1 <==> OverrunsInTurn(Lengths(s), len - |out|)
    decreases |s|
  {
    var n := Length(s);
    if s[0] == 0 || n == 0 || |out| + n > len {
      NoUnit(s, out, len);
    } else if |out| + 1 == len {
      LastUnit(s, out, len);
    } else {
      NextUnit(s, out, len);
      UnitsInTurn(s[n..], out + Unit(Value(s[..n])), len);
    }
  }

  lemma InTurnTells(ns: seq<nat>, room: nat, overrun: bool)
    requires overrun <==> OverrunsInTurn(ns, room)
    ensures overrun <==> Overruns(ns, room)
  {
    OverrunsInTurnExactly(ns, room);
  }

  // One byte is written behind len exactly then.
  lemma OverrunsExactly(s: seq<byte>, out: seq<byte>, len: nat)
    requires Terminated(s) && |out| <= len
    ensures |ToUnits(s, out, len).out| == len + 1 <==> Overruns(Lengths(s), len - |out|)
  {
    UnitsInTurn(s, out, len);
    InTurnTells(Lengths(s), len - |out|, |ToUnits(s, out, len).out| == len + 1);
  }

  // One letter for a buffer of one byte.
  lemma UnitOverrun()
    ensures Terminated([0x41, 0]) && Overruns(Lengths([0x41, 0]), 1)
  {
    LengthsFirst([0x41, 0]);
  }

  // The last unit may start on the last byte allowed.
  method Utf8ToUnicode(mem: seq<byte>, unicodeBuff: array<byte>, len: nat) returns (r: int)
    requires Terminated(mem) && len <= unicodeBuff.Length
    requires Overruns(Lengths(mem), len) ==> len < unicodeBuff.Length
    modifies unicodeBuff
    ensures r == ToUnits(mem, [], len).code
    ensures Holds(unicodeBuff[..], ToUnits(mem, [], len).out, Cleared(old(unicodeBuff[..]), len))
  {
    Clear(unicodeBuff, len);
    OverrunsExactly(mem, [], len);
    r := FillUnits(mem, unicodeBuff, len);
  }

  method FillUnits(mem: seq<byte>, unicodeBuff: array<byte>, len: nat) returns (r: int)
    requires Terminated(mem) && |ToUnits(mem, [], len).out| <= unicodeBuff.Length
    modifies unicodeBuff
    ensures r == ToUnits(mem, [], len).code
    ensures Holds(unicodeBuff[..], ToUnits(mem, [], len).out, old(unicodeBuff[..]))
  {
    ghost var goal, was := ToUnits(mem, [], len), unicodeBuff[..];
    ghost var s, out: seq<byte> := mem, [];
    var currLen, cursor := 0, 0;
    assert mem[0..] == mem;
    while mem[cursor] != 0
      invariant 0 <= cursor < |mem| && s == mem[cursor..] && Terminated(s)
      invariant currLen == |out| <= len + 1 && Holds(unicodeBuff[..], out, was)
      invariant ToUnits(s, out, len) == goal
      decreases |mem| - cursor
    {
      ToUnitsTaken(s, out, len);
      var nBytes, unicode := Decode(mem, cursor);
      if nBytes == 0 || currLen + nBytes > len {
        return -2;
      }
      Append(unicodeBuff, currLen, Unit(unicode), out, was);
      SuffixAt(mem, cursor, nBytes);
      s, out := s[nBytes..], out + Unit(unicode);
      cursor := cursor + nBytes;
      currLen := currLen + 2;
    }
    return currLen;
  }

  // memset
  method Clear(buf: array<byte>, len: nat)
    requires len <= buf.Length
    modifies buf
    ensures buf[..] == Cleared(old(buf[..]), len)
  {
    forall i | 0 <= i < len {
      buf[i] := 0;
    }
    assert buf[len..] == old(buf[len..]);
  }

  function Cleared(s: seq<byte>, len: nat): (r: seq<byte>)
    requires len <= |s|
    ensures |r| == |s| && r[len..] == s[len..] && forall i :: 0 <= i < len ==> r[i] == 0
  {
    seq(len, _ => 0) + s[len..]
  }

  lemma FromUnitsUnfolds(units: seq<byte>, out: seq<byte>, len: nat)
    requires |units| >= 2
    ensures var w := Encode(UnitValue(units[0], units[1]));
      FromUnits(units, out, len) == if |out| + |w| > len then Outcome(-3, out) else FromUnits(units[2..], out + w, len)
  {
  }

  // How many bytes the first unit becomes.
  function UnitBytes(units: seq<byte>): nat
    requires |units| >= 2
  {
    var u := UnitValue(units[0], units[1]);
    if u <= 0x7F then 1 else if u <= 0x7FF then 2 else 3
  }

  lemma UnitBytesEncoded(units: seq<byte>)
    requires |units| >= 2
    ensures UnitBytes(units) == |Encode(UnitValue(units[0], units[1]))|
  {
  }

  // The loop as it runs on any length: it asks for two bytes of input first, then
  // for room, and its count never becomes zero from an odd one.
  predicate ReadsUnits(units: seq<byte>, currLen: nat, len: nat)
    decreases |units|
  {
    units != [] ==>
      && |units| >= 2
      && (currLen + UnitBytes(units) <= len ==> ReadsUnits(units[2..], currLen + UnitBytes(units), len))
  }

  function EncodedLength(units: seq<byte>): nat
    decreases |units|
  {
    if |units| < 2 then 0 else UnitBytes(units) + EncodedLength(units[2..])
  }

  // It stays inside its input exactly if the length is even or the whole units do
  // not fit.
  lemma {:induction false} ReadsUnitsExactly(units: seq<byte>, currLen: nat, len: nat)
    requires currLen <= len
    ensures ReadsUnits(units, currLen, len) <==> |units| % 2 == 0 || currLen + EncodedLength(units) > len
    decreases |units|
  {
    if |units| >= 2 {
      if currLen + UnitBytes(units) <= len {
        ReadsUnitsExactly(units[2..], currLen + UnitBytes(units), len);
      }
    }
  }

  // One byte of input with room for its encoding.
  lemma OddRunsPast(b: byte)
    ensures !ReadsUnits([b], 0, 1)
  {
  }

  // The result is -3 exactly if they do not fit.
  lemma {:induction false} FullExactly(units: seq<byte>, out: seq<byte>, len: nat)
    requires |out| <= len
    ensures FromUnits(units, out, len).code == -3 <==> |out| + EncodedLength(units) > len
    decreases |units|
  {
    if |units| >= 2 {
      UnitBytesEncoded(units);
      var w := Encode(UnitValue(units[0], units[1]));
      if |out| + |w| <= len {
        FullExactly(units[2..], out + w, len);
      }
    }
  }

  // An odd length makes the source run past its input unless the buffer is full
  // before.
  method UnicodeToUtf8(units: seq<byte>, utf8Buff: array<byte>, len: nat) returns (r: int)
    requires len <= utf8Buff.Length
    requires |units| % 2 == 0 || EncodedLength(units) > len
    modifies utf8Buff
    ensures r == FromUnits(units, [], len).code
    ensures Holds(utf8Buff[..], FromUnits(units, [], len).out, old(utf8Buff[..]))
  {
    ReadsUnitsExactly(units, 0, len);
    ghost var goal, was := FromUnits(units, [], len), utf8Buff[..];
    ghost var out: seq<byte>, rest := [], units;
    var currLen, cursor := 0, 0;
    while cursor < |units|
      invariant 0 <= cursor <= |units| && rest == units[cursor..]
      invariant currLen == |out| <= len && Holds(utf8Buff[..], out, was)
      invariant ReadsUnits(rest, currLen, len) && FromUnits(rest, out, len) == goal
      decreases |units| - cursor
    {
      FromUnitsUnfolds(rest, out, len);
      UnitBytesEncoded(rest);
      var w := Encoded(UnitValue(units[cursor], units[cursor + 1]));
      rest := rest[2..];
      if currLen + |w| > len {
        return -3;
      }
      Append(utf8Buff, currLen, w, out, was);
      out := out + w;
      currLen := currLen + |w|;
      cursor := cursor + 2;
    }
    return currLen;
  }

  // ---------------------------------------------------------------------------
  // Round trip
  // ---------------------------------------------------------------------------

  predicate SmallCodes(us: seq<word>) {
    forall i :: 0 <= i < |us| ==> 1 <= us[i] <= 0xFFFF
  }

  predicate UnitCodes(us: seq<word>) {
    forall i :: 0 <= i < |us| ==> us[i] <= 0xFFFF
  }

  function UnitsOf(us: seq<word>): (r: seq<byte>)
    ensures |r| == 2 * |us|
  {
    if us == [] then [] else Unit(us[0]) + UnitsOf(us[1..])
  }

  lemma ToUnitsStep(u: word, more: seq<byte>, out: seq<byte>, len: nat)
    requires 1 <= u <= 0xFFFF && Terminated(more)
    ensures Terminated(Encode(u) + more)
    ensures ToUnits(Encode(u) + more, out, len) ==
      if |out| + |Encode(u)| <= len then ToUnits(more, out + Unit(u), len) else Outcome(-2, out)
  {
    EncodeIsWord(u);
    WordLength(Encode(u), more);
    ValueOfEncode(u);
    assert (Encode(u) + more)[0] == Encode(u)[0];
  }

  // Every character has room where its unit goes; the first stands at `at`.
  predicate Fit(us: seq<word>, at: nat, len: nat) {
    forall i :: 0 <= i < |us| ==> at + 2 * i + |Encode(us[i])| <= len
  }

  // Room for one byte behind the units always suffices.
  lemma RoomSuffices(us: seq<word>, at: nat, len: nat)
    requires SmallCodes(us) && at + 2 * |us| + 1 <= len
    ensures Fit(us, at, len)
  {
  }

  lemma FitFirst(us: seq<word>, at: nat, len: nat)
    requires us != []
    ensures Fit(us, at, len) <==> at + |Encode(us[0])| <= len && Fit(us[1..], at + 2, len)
  {
    var rest := us[1..];
    assert forall i :: 0 <= i < |rest| ==> us[i + 1] == rest[i];
    if Fit(us, at, len) {
      forall i | 0 <= i < |rest|
        ensures at + 2 + 2 * i + |Encode(rest[i])| <= len
      {
        assert at + 2 * (i + 1) + |Encode(us[i + 1])| <= len;
      }
    }
  }

  // Encoded text becomes its units exactly if every character fits where it stands;
  // otherwise the result is -2.
  lemma {:induction false} EncodedToUnits(us: seq<word>, out: seq<byte>, len: nat)
    requires SmallCodes(us)
    ensures Terminated(EncodeAll(us) + [0])
    ensures var r := ToUnits(EncodeAll(us) + [0], out, len);
      if Fit(us, |out|, len) then r == Outcome(|out| + 2 * |us|, out + UnitsOf(us)) else r.code == -2
    decreases |us|
  {
    assert (EncodeAll(us) + [0])[|EncodeAll(us)|] == 0;
    if us == [] {
      Empty([0]);
      Empty(out);
    } else {
      var rest := us[1..];
      EncodingsFirst(us);
      Assoc(Encode(us[0]), EncodeAll(rest), [0]);
      FitFirst(us, |out|, len);
      EncodedToUnits(rest, out + Unit(us[0]), len);
      ToUnitsStep(us[0], EncodeAll(rest) + [0], out, len);
      Assoc(out, Unit(us[0]), UnitsOf(rest));
    }
  }

  lemma UnitReads(u: word)
    requires u <= 0xFFFF
    ensures UnitValue(Unit(u)[0], Unit(u)[1]) == u
  {
    ModSmall(u / 0x100, 0x100);
  }

  // A unit holds the two low bytes of any number, low byte first.
  lemma UnitKeepsLowBytes(u: nat)
    ensures var lo: nat, hi: nat := Unit(u)[0], Unit(u)[1]; lo < 0x100 && lo + 0x100 * hi == u % 0x10000
  {
    var k, high := Euclid(u / 0x100, 0x100);
    DivModUnique(u, 0x10000, k, u % 0x100 + 0x100 * high);
  }

  lemma {:induction false} UnitsToEncoded(us: seq<word>, out: seq<byte>, len: nat)
    requires UnitCodes(us) && |out| <= len
    ensures var r := FromUnits(UnitsOf(us), out, len);
      if |out| + |EncodeAll(us)| <= len
      then r == Outcome(|out| + |EncodeAll(us)|, out + EncodeAll(us)) else r.code == -3
    decreases |us|
  {
    if us == [] {
      Empty(out);
    } else {
      var w, rest := Encode(us[0]), us[1..];
      EncodingsFirst(us);
      UnitReads(us[0]);
      assert UnitsOf(us)[2..] == UnitsOf(rest);
      if |out| + |w| <= len {
        UnitsToEncoded(rest, out + w, len);
        Assoc(out, w, EncodeAll(rest));
      }
    }
  }

  // Text of shortest-form characters up to 0xFFFF comes back from its units, two
  // bytes for every character.
  lemma UnitsRoundTrip(us: seq<word>, unitLen: nat, len: nat)
    requires SmallCodes(us) && Fit(us, 0, unitLen) && |EncodeAll(us)| <= len
    ensures var text := EncodeAll(us);
      && Terminated(text + [0])
      && var r := ToUnits(text + [0], [], unitLen);
      r.code == |r.out| == 2 * |us| && FromUnits(r.out, [], len) == Outcome(|text|, text)
  {
    EncodedToUnits(us, [], unitLen);
    UnitsToEncoded(us, [], len);
    Empty(UnitsOf(us));
    Empty(EncodeAll(us));
  }
}
