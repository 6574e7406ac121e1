// Encoding and decoding one character with the masks, shifts and ors of the source,
// proved to compute what Utf8 says.
module Utf8Bits {
  import opened Arithmetic
  import opened Bits
  import opened Utf8

  lemma TopBits(b: byte)
    ensures b / 0x40 % 4 * 0x40 == 0x80 <==> Continues(b)
  {
  }

  lemma ContinuesMasked(b: byte)
    ensures And(b, 0xC0) == 0x80 <==> Continues(b)
  {
    AndField(b, 6, 0x40, 2, 4, 0xC0);
    TopBits(b);
  }

  lemma OrDoubles(a: nat, b: nat)
    ensures Or(2 * a, 2 * b) == 2 * Or(a, b)
  {
  }

  // The next six bits behind those already there.
  lemma {:induction false} OrJoins(high: nat, low: nat, k: nat)
    requires low < 0x40
    ensures Or(Shl(high, k + 6), Shl(low, k)) == Shl(high * 0x40 + low, k)
    decreases k
  {
    if k == 0 {
      OrDisjoint(high, low, 6);
      ShlTimes(high, 6);
    } else {
      OrJoins(high, low, k - 1);
      OrDoubles(Shl(high, k + 5), Shl(low, k - 1));
    }
  }

  lemma {:induction false} ShlSix(a: nat, k: nat)
    ensures Shl(a, k + 6) == a * (0x40 * Shl(1, k))
    decreases k
  {
    if k == 0 {
      ShlTimes(a, 6);
    } else {
      ShlSix(a, k - 1);
      MulAssoc(a, 2, 0x40 * Shl(1, k - 1));
      MulAssoc(2, a, 0x40 * Shl(1, k - 1));
    }
  }

  // A field of a number under the fixed high bits of a byte.
  lemma Tagged(u: nat, s: nat, d: nat, k: nat, m: nat, c: nat)
    requires d == Shl(1, s) && m == Shl(1, k)
    ensures Or(And(Shr(u, s), m - 1), c * m) == c * m + u / d % m
  {
    ShiftAndMask(u, s, d);
    ShiftAndMask(Shr(u, s), k, m);
    OrDisjoint(c, u / d % m, k);
    ShlTimes(c, k);
  }

  // The low bits of a head become the number, shifted to bit k.
  method HeadBits(b: byte, mask: nat, k: nat, ghost j: nat, ghost m: nat, ghost d: nat) returns (r: nat)
    requires m == Shl(1, j) && mask == m - 1 && d == Shl(1, k)
    ensures r == Low(b, m) * d
  {
    ShiftAndMask(b, j, m);
    ShlTimes(Low(b, m), k);
    r := Shl(And(b, mask), k);
  }

  // The low six bits of a byte are put in at bit k.
  method OrBits(unicode: nat, b: byte, k: nat, ghost high: nat, ghost d: nat) returns (r: nat)
    requires d == Shl(1, k) && unicode == high * (0x40 * d)
    ensures r == (high * 0x40 + Low(b, 0x40)) * d
  {
    ShiftAndMask(b, 6, 0x40);
    OrJoins(high, Low(b, 0x40), k);
    ShlSix(high, k);
    ShlTimes(high * 0x40 + Low(b, 0x40), k);
    r := Or(unicode, Shl(And(b, 0x3F), k));
  }

  method JoinTwo(a: byte, b: byte) returns (unicode: nat)
    ensures unicode == Value([a, b])
  {
    unicode := HeadBits(a, 0x1F, 6, 5, 0x20, 0x40);
    unicode := OrBits(unicode, b, 0, Low(a, 0x20), 1);
  }

  method JoinThree(a: byte, b: byte, c: byte) returns (unicode: nat)
    ensures unicode == Value([a, b, c])
  {
    unicode := HeadBits(a, 0x0F, 12, 4, 0x10, 0x1000);
    unicode := OrBits(unicode, b, 6, Low(a, 0x10), 0x40);
    unicode := OrBits(unicode, c, 0, Low(a, 0x10) * 0x40 + Low(b, 0x40), 1);
  }

  method JoinFour(a: byte, b: byte, c: byte, d: byte) returns (unicode: nat)
    ensures unicode == Value([a, b, c, d])
  {
    Powers();
    unicode := HeadBits(a, 0x07, 18, 3, 8, 0x40000);
    unicode := OrBits(unicode, b, 12, Low(a, 8), 0x1000);
    ghost var high := Low(a, 8) * 0x40 + Low(b, 0x40);
    unicode := OrBits(unicode, c, 6, high, 0x40);
    unicode := OrBits(unicode, d, 0, high * 0x40 + Low(c, 0x40), 1);
  }

  method JoinFive(a: byte, b: byte, c: byte, d: byte, e: byte) returns (unicode: nat)
    ensures unicode == Value([a, b, c, d, e])
  {
    Powers();
    unicode := HeadBits(a, 0x03, 24, 2, 4, 0x1000000);
    unicode := OrBits(unicode, b, 18, Low(a, 4), 0x40000);
    ghost var high := Low(a, 4) * 0x40 + Low(b, 0x40);
    unicode := OrBits(unicode, c, 12, high, 0x1000);
    high := high * 0x40 + Low(c, 0x40);
    unicode := OrBits(unicode, d, 6, high, 0x40);
    unicode := OrBits(unicode, e, 0, high * 0x40 + Low(d, 0x40), 1);
  }

  lemma SixFields(w: seq<byte>)
    requires |w| == 6
    ensures Value(w) == ((((Low(w[0], 2) * 0x40 + Low(w[1], 0x40)) * 0x40 + Low(w[2], 0x40)) * 0x40
                          + Low(w[3], 0x40)) * 0x40 + Low(w[4], 0x40)) * 0x40 + Low(w[5], 0x40)
  {
  }

  method JoinSix(a: byte, b: byte, c: byte, d: byte, e: byte, f: byte) returns (unicode: nat)
    ensures unicode == Value([a, b, c, d, e, f])
  {
    Powers();
    unicode := HeadBits(a, 0x01, 30, 1, 2, 0x40000000);
    unicode := OrBits(unicode, b, 24, Low(a, 2), 0x1000000);
    ghost var high := Low(a, 2) * 0x40 + Low(b, 0x40);
    unicode := OrBits(unicode, c, 18, high, 0x40000);
    high := high * 0x40 + Low(c, 0x40);
    unicode := OrBits(unicode, d, 12, high, 0x1000);
    high := high * 0x40 + Low(d, 0x40);
    unicode := OrBits(unicode, e, 6, high, 0x40);
    high := high * 0x40 + Low(e, 0x40);
    unicode := OrBits(unicode, f, 0, high, 1);
    SixFields([a, b, c, d, e, f]);
  }

  method Field(u: nat, s: nat, mask: nat, tag: nat, ghost d: nat, ghost k: nat, ghost m: nat, ghost c: nat)
    returns (b: byte)
    requires d == Shl(1, s) && m == Shl(1, k) && mask == m - 1 && tag == c * m && c * m + u / d % m < 0x100
    ensures b == tag + u / d % m
  {
    Tagged(u, s, d, k, m, c);
    b := Or(And(Shr(u, s), mask), tag);
  }

  method Tail(u: nat, s: nat, ghost d: nat) returns (b: byte)
    requires d == Shl(1, s)
    ensures b == 0x80 + u / d % 0x40
  {
    b := Field(u, s, 0x3F, 0x80, d, 6, 0x40, 2);
  }

  method EncodeTwo(u: word) returns (a: byte, b: byte)
    requires 0x7F < u <= 0x7FF
    ensures [a, b] == Encode(u)
  {
    a := Field(u, 6, 0x1F, 0xC0, 0x40, 5, 0x20, 6);
    b := Tail(u, 0, 1);
  }

  method EncodeThree(u: word) returns (a: byte, b: byte, c: byte)
    requires 0x7FF < u <= 0xFFFF
    ensures [a, b, c] == Encode(u)
  {
    a := Field(u, 12, 0x0F, 0xE0, 0x1000, 4, 0x10, 14);
    b := Tail(u, 6, 0x40);
    c := Tail(u, 0, 1);
  }

  method EncodeFour(u: word) returns (a: byte, b: byte, c: byte, d: byte)
    requires 0xFFFF < u <= 0x7FFFFFF
    ensures [a, b, c, d] == Encode(u)
  {
    Powers();
    a := Field(u, 18, 0x07, 0xF0, 0x40000, 3, 8, 30);
    b := Tail(u, 12, 0x1000);
    c := Tail(u, 6, 0x40);
    d := Tail(u, 0, 1);
  }

  method EncodeFive(u: word) returns (a: byte, b: byte, c: byte, d: byte, e: byte)
    requires 0x7FFFFFF < u
    ensures [a, b, c, d, e] == Encode(u)
  {
    Powers();
    a := Field(u, 24, 0x03, 0xF8, 0x1000000, 2, 4, 62);
    b := Tail(u, 18, 0x40000);
    c := Tail(u, 12, 0x1000);
    d := Tail(u, 6, 0x40);
    e := Tail(u, 0, 1);
  }

  // The branch for six bytes cannot be reached with 32 bits.
  method EncodeInto(u: word, utf8Buff: array<byte>) returns (nBytes: nat)
    requires utf8Buff.Length >= |Encode(u)|
    modifies utf8Buff
    ensures nBytes == |Encode(u)| && utf8Buff[..nBytes] == Encode(u)
    ensures utf8Buff[nBytes..] == old(utf8Buff[nBytes..])
  {
    if u <= 0x7F {
      utf8Buff[0] := Field(u, 0, 0x7F, 0, 1, 7, 0x80, 0);
      nBytes := 1;
    } else if u <= 0x7FF {
      var a, b := EncodeTwo(u);
      utf8Buff[0], utf8Buff[1] := a, b;
      nBytes := 2;
    } else if u <= 0xFFFF {
      var a, b, c := EncodeThree(u);
      utf8Buff[0], utf8Buff[1], utf8Buff[2] := a, b, c;
      nBytes := 3;
    } else if u <= 0x7FFFFFF {
      var a, b, c, d := EncodeFour(u);
      utf8Buff[0], utf8Buff[1], utf8Buff[2], utf8Buff[3] := a, b, c, d;
      nBytes := 4;
    } else {
      var a, b, c, d, e := EncodeFive(u);
      utf8Buff[0], utf8Buff[1], utf8Buff[2], utf8Buff[3], utf8Buff[4] := a, b, c, d, e;
      nBytes := 5;
    }
  }

  // The encoding by way of a scratch buffer.
  method Encoded(u: word) returns (w: seq<byte>)
    ensures w == Encode(u)
  {
    var utf8Str := new byte[6](_ => 0);
    var nBytes := EncodeInto(u, utf8Str);
    w := utf8Str[..nBytes];
  }
}
