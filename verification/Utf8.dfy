// One character of UTF-8: telling its length from its head, decoding and encoding.
// The table is the six-byte form of section 2 of RFC 2279. Masks and shifts of the
// source are written as remainders and quotients by powers of two; in Utf8Bits the
// methods that encode and decode use the operators themselves.
module Utf8 {
  import opened Arithmetic

  type byte = b: int | 0 <= b < 0x100
  type word = u: int | 0 <= u < 0x1_0000_0000

  // The length a head byte announces; 0 for a byte that is no head. 0xFE and 0xFF
  // count as heads of five bytes.
  function Head(b: byte): (n: nat)
    ensures n <= 6
  {
    if b >= 0x80 then
      if b >= 0xFC && b <= 0xFD then 6
      else if b >= 0xF8 then 5
      else if b >= 0xF0 then 4
      else if b >= 0xE0 then 3
      else if b >= 0xC0 then 2
      else 0
    else 1
  }

  predicate Continues(b: byte) {
    0x80 <= b < 0xC0
  }

  // Memory from some address on, up to a terminator.
  predicate Terminated(s: seq<byte>) {
    s != [] && s[|s| - 1] == 0
  }

  lemma TerminatedTail(s: seq<byte>, k: nat)
    requires Terminated(s) && k <= |s| && forall i :: 0 <= i < k ==> s[i] != 0
    ensures k < |s| && Terminated(s[k..])
  {
  }

  // How many of n announced bytes are there: the scan stops at the first byte that
  // does not continue the character.
  function Body(s: seq<byte>, n: nat): (r: nat)
    requires Terminated(s) && (n > 1 ==> s[0] != 0)
    ensures r <= n && r <= |s| && (n > 0 ==> r > 0)
    ensures forall i :: 1 <= i < r ==> Continues(s[i])
    ensures r < n ==> r < |s| && !Continues(s[r])
  {
    if n <= 1 then n else BodyFrom(s, 1, n)
  }

  lemma ContinuedNotEnded(s: seq<byte>, i: nat)
    requires 1 <= i <= |s| && s[0] != 0 && Terminated(s)
    requires forall j :: 1 <= j < i ==> Continues(s[j])
    ensures i < |s| && Terminated(s[i..])
  {
    forall j | 1 <= j < i
      ensures s[j] != 0
    {
      assert Continues(s[j]);
    }
    TerminatedTail(s, i);
  }

  function BodyFrom(s: seq<byte>, i: nat, n: nat): (r: nat)
    requires 1 <= i <= n && i <= |s| && s[0] != 0 && Terminated(s)
    requires forall j :: 1 <= j < i ==> Continues(s[j])
    ensures i <= r <= n && r <= |s|
    ensures forall j :: 1 <= j < r ==> Continues(s[j])
    ensures r < n ==> r < |s| && !Continues(s[r])
    decreases n - i
  {
    if i == n then n
    else
      ContinuedNotEnded(s, i);
      if !Continues(s[i]) then i else BodyFrom(s, i + 1, n)
  }

  function Low(b: byte, m: nat): nat
    requires m > 0
  {
    b % m
  }

  // The number in a character of n bytes.
  function Value(w: seq<byte>): (u: nat)
    requires 1 <= |w| <= 6
    ensures u < 0x8000_0000
  {
    match |w|
    case 1 => Low(w[0], 0x80)
    case 2 => Low(w[0], 0x20) * 0x40 + Low(w[1], 0x40)
    case 3 => Low(w[0], 0x10) * 0x1000 + Low(w[1], 0x40) * 0x40 + Low(w[2], 0x40)
    case 4 => Low(w[0], 8) * 0x40000 + Low(w[1], 0x40) * 0x1000 + Low(w[2], 0x40) * 0x40 + Low(w[3], 0x40)
    case 5 => Low(w[0], 4) * 0x1000000 + Low(w[1], 0x40) * 0x40000 + Low(w[2], 0x40) * 0x1000 + Low(w[3], 0x40) * 0x40
              + Low(w[4], 0x40)
    case 6 => Low(w[0], 2) * 0x40000000 + Low(w[1], 0x40) * 0x1000000 + Low(w[2], 0x40) * 0x40000
              + Low(w[3], 0x40) * 0x1000 + Low(w[4], 0x40) * 0x40 + Low(w[5], 0x40)
  }

  // The length of the first character of s, cut short where its bytes end; 0 if s
  // starts with no head.
  function Length(s: seq<byte>): (n: nat)
    requires Terminated(s)
    ensures n <= 6 && n <= |s|
  {
    Body(s, Head(s[0]))
  }

  function Encode(u: word): (w: seq<byte>)
    ensures 1 <= |w| <= 5
  {
    if u <= 0x7F then [u % 0x80]
    else if u <= 0x7FF then [0xC0 + u / 0x40 % 0x20, 0x80 + u % 0x40]
    else if u <= 0xFFFF then [0xE0 + u / 0x1000 % 0x10, 0x80 + u / 0x40 % 0x40, 0x80 + u % 0x40]
    else if u <= 0x7FFFFFF then
      [0xF0 + u / 0x40000 % 8, 0x80 + u / 0x1000 % 0x40, 0x80 + u / 0x40 % 0x40, 0x80 + u % 0x40]
    else
      [0xF8 + u / 0x1000000 % 4, 0x80 + u / 0x40000 % 0x40, 0x80 + u / 0x1000 % 0x40, 0x80 + u / 0x40 % 0x40,
       0x80 + u % 0x40]
  }

  // ---------------------------------------------------------------------------
  // Words
  // ---------------------------------------------------------------------------

  // A head and exactly the continuation bytes it announces.
  predicate IsWord(w: seq<byte>) {
    |w| > 0 && Head(w[0]) == |w| && forall i :: 1 <= i < |w| ==> Continues(w[i])
  }

  lemma EncodeIsWord(u: word)
    ensures IsWord(Encode(u))
    ensures u > 0 ==> forall i :: 0 <= i < |Encode(u)| ==> Encode(u)[i] != 0
  {
    var w := Encode(u);
    if u <= 0x7F { ModSmall(u, 0x80); }
  }

  // A word at the start of s is taken as one character.
  lemma WordLength(w: seq<byte>, tail: seq<byte>)
    requires IsWord(w) && 0 !in w && Terminated(tail)
    ensures Terminated(w + tail) && Length(w + tail) == |w|
    ensures (w + tail)[..|w|] == w && (w + tail)[|w|..] == tail
  {
    var s := w + tail;
    assert forall i :: 0 <= i < |w| ==> s[i] == w[i];
  }

  // ---------------------------------------------------------------------------
  // Round trips
  // ---------------------------------------------------------------------------

  // The low bits of a byte above its fixed high bits.
  lemma LowAbove(r: nat, k: nat, m: nat)
    requires m > 0 && r < m && m * k + r < 0x100
    ensures Low(m * k + r, m) == r
  {
    DivModUnique(m * k + r, m, k, r);
  }

  // Decoding an encoding loses exactly the bits that do not fit.
  lemma ValueOfEncode(u: word)
    ensures Value(Encode(u)) == if u <= 0x1FFFFF then u else if u <= 0x7FFFFFF then u % 0x200000 else u % 0x4000000
  {
    if u <= 0x7F {
      ModSmall(u, 0x80);
    } else if u <= 0x7FF {
      TwoBytes(u);
    } else if u <= 0xFFFF {
      ThreeBytes(u);
    } else if u <= 0x7FFFFFF {
      FourBytes(u);
    } else {
      FiveBytes(u);
    }
  }

  lemma TwoBytes(u: word)
    requires 0x7F < u <= 0x7FF
    ensures Value(Encode(u)) == u
  {
    var r1, r0 := Euclid(u, 0x40);
    ModSmall(r1, 0x20);
    LowAbove(r1, 6, 0x20);
    LowAbove(r0, 2, 0x40);
  }

  lemma ThreeBytes(u: word)
    requires 0x7FF < u <= 0xFFFF
    ensures Value(Encode(u)) == u
  {
    var _, _, r2, r1, r0 := SixBitGroups(u);
    ModSmall(r2, 0x10);
    LowAbove(r2, 14, 0x10);
    LowAbove(r1, 2, 0x40);
    LowAbove(r0, 2, 0x40);
  }

  lemma FourBytes(u: word)
    requires 0xFFFF < u <= 0x7FFFFFF
    ensures Value(Encode(u)) == u % 0x200000 && (u <= 0x1FFFFF ==> u % 0x200000 == u)
  {
    var q, r3, r2, r1, r0 := SixBitGroups(u);
    var k, low := Euclid(0x40 * q + r3, 8);
    LowAbove(low, 30, 8);
    LowAbove(r2, 2, 0x40);
    LowAbove(r1, 2, 0x40);
    LowAbove(r0, 2, 0x40);
    DivModUnique(u, 0x200000, k, low * 0x40000 + r2 * 0x1000 + r1 * 0x40 + r0);
    if u <= 0x1FFFFF { ModSmall(u, 0x200000); }
  }

  lemma FiveBytes(u: word)
    requires 0x7FFFFFF < u
    ensures Value(Encode(u)) == u % 0x4000000
  {
    var q, r3, r2, r1, r0 := SixBitGroups(u);
    var k, low := Euclid(q, 4);
    LowAbove(low, 62, 4);
    LowAbove(r3, 2, 0x40);
    LowAbove(r2, 2, 0x40);
    LowAbove(r1, 2, 0x40);
    LowAbove(r0, 2, 0x40);
    DivModUnique(u, 0x4000000, k, low * 0x1000000 + r3 * 0x40000 + r2 * 0x1000 + r1 * 0x40 + r0);
  }

  // The round trip is the identity exactly up to 0x1FFFFF.
  lemma RoundTripExactly(u: word)
    ensures Value(Encode(u)) == u <==> u <= 0x1FFFFF
  {
    ValueOfEncode(u);
  }

  // Shortest form: the bits the head adds over a shorter word are not all zero.
  predicate Shortest(w: seq<byte>)
    requires 1 <= |w| <= 4
  {
    match |w|
    case 1 => true
    case 2 => Low(w[0], 0x20) >= 2
    case 3 => Low(w[0], 0x10) > 0 || Low(w[1], 0x40) >= 0x20
    case 4 => Low(w[0], 8) > 0 || Low(w[1], 0x40) >= 0x10
  }

  // Encoding the value of a word gives the word back exactly for shortest forms of
  // up to four bytes.
  lemma EncodeOfValue(w: seq<byte>)
    requires IsWord(w)
    ensures Encode(Value(w)) == w <==> |w| <= 4 && Shortest(w)
  {
    match |w| {
      case 1 => ModSmall(w[0], 0x80);
      case 2 => TwoBytesBack(w);
      case 3 => ThreeBytesBack(w);
      case 4 => FourBytesBack(w);
      case 5 => assert Value(w) <= 0x7FFFFFF;
      case 6 => assert |Encode(Value(w))| <= 5;
    }
  }

  lemma LowFields(w: seq<byte>, m: nat, k: nat)
    requires IsWord(w) && m > 0 && m * k <= w[0] < m * k + m
    ensures w[0] == m * k + Low(w[0], m) && Low(w[0], m) < m
    ensures forall i :: 1 <= i < |w| ==> w[i] == 0x80 + Low(w[i], 0x40) && Low(w[i], 0x40) < 0x40
  {
    DivModUnique(w[0], m, k, w[0] - m * k);
    forall i | 1 <= i < |w|
      ensures w[i] == 0x80 + Low(w[i], 0x40) && Low(w[i], 0x40) < 0x40
    {
      assert Continues(w[i]);
      DivModUnique(w[i], 0x40, 2, w[i] - 0x80);
    }
  }

  lemma TwoBytesBack(w: seq<byte>)
    requires IsWord(w) && |w| == 2
    ensures Encode(Value(w)) == w <==> Shortest(w)
  {
    LowFields(w, 0x20, 6);
    var a, b := Low(w[0], 0x20), Low(w[1], 0x40);
    var u := Value(w);
    DivModUnique(u, 0x40, a, b);
    ModSmall(a, 0x20);
    if Shortest(w) {
      assert Encode(u) == [w[0], w[1]] == w;
    } else {
      assert |Encode(u)| == 1;
    }
  }

  lemma ThreeBytesBack(w: seq<byte>)
    requires IsWord(w) && |w| == 3
    ensures Encode(Value(w)) == w <==> Shortest(w)
  {
    LowFields(w, 0x10, 14);
    var a, b, c := Low(w[0], 0x10), Low(w[1], 0x40), Low(w[2], 0x40);
    var u := Value(w);
    DivModUnique(u, 0x1000, a, b * 0x40 + c);
    DivModUnique(u, 0x40, a * 0x40 + b, c);
    DivModUnique(a * 0x40 + b, 0x40, a, b);
    ModSmall(a, 0x10);
    if Shortest(w) {
      assert Encode(u) == [w[0], w[1], w[2]] == w;
    } else {
      assert |Encode(u)| <= 2;
    }
  }

  lemma FourBytesBack(w: seq<byte>)
    requires IsWord(w) && |w| == 4
    ensures Encode(Value(w)) == w <==> Shortest(w)
  {
    LowFields(w, 8, 30);
    var a, b, c, d := Low(w[0], 8), Low(w[1], 0x40), Low(w[2], 0x40), Low(w[3], 0x40);
    var u := Value(w);
    DivModUnique(u, 0x40000, a, b * 0x1000 + c * 0x40 + d);
    DivModUnique(u, 0x1000, a * 0x40 + b, c * 0x40 + d);
    DivModUnique(u, 0x40, a * 0x1000 + b * 0x40 + c, d);
    DivModUnique(a * 0x40 + b, 0x40, a, b);
    DivModUnique(a * 0x1000 + b * 0x40 + c, 0x40, a * 0x40 + b, c);
    ModSmall(a, 8);
    if Shortest(w) {
      assert Encode(u) == [w[0], w[1], w[2], w[3]] == w;
    } else {
      assert |Encode(u)| <= 3;
    }
  }
}
