// What percent decoding makes of any text, with the hexadecimal digits listed.
module PercentText {
  import opened Arithmetic
  import opened Bits
  import opened Buffers
  import opened Utf8
  import opened Percent
  import opened Sequences

  const CAPITALS := "0123456789ABCDEF"
  const SMALLS := "0123456789abcdef"

  // The byte c is the hexadecimal digit for x.
  predicate IsHex(c: byte, x: nat) {
    x < 0x10 && (c == CAPITALS[x] as int || c == SMALLS[x] as int)
  }

  ghost predicate AnyHex(c: byte) {
    exists x: nat :: IsHex(c, x)
  }

  // Digits are written as capitals.
  lemma HexDigitListed(x: nat)
    requires x < 0x10
    ensures HexDigit(x) == CAPITALS[x] as int
  {
  }

  // Both cases are read, and any other byte as if it stood behind the digits.
  lemma HexValueListed(c: byte)
    ensures forall x: nat :: IsHex(c, x) ==> HexValue(c) == x
    ensures !AnyHex(c) ==> (HexValue(c) + 48) % 0x100 == c
  {
    if 65 <= c <= 70 { assert IsHex(c, c - 55); }
    if 97 <= c <= 102 { assert IsHex(c, c - 87); }
  }

  // Of merged bytes the first gives the high half, the second the low one and
  // whatever else it has.
  lemma MergeBits(h: byte, l: byte, k: nat)
    ensures Bit(Merge(h, l), k) <==> k < 8 && (Bit(l, k) || (k >= 4 && Bit(h, k - 4)))
  {
    OrBit(Shl(h, 4), l, k);
    ShlBit(h, 4, k);
    LowByteBit(Or(Shl(h, 4), l), k, 8);
  }

  lemma {:induction false} LowByteBit(a: nat, k: nat, j: nat)
    ensures Bit(a % Shl(1, j), k) <==> k < j && Bit(a, k)
    decreases j
  {
    ShiftAndMask(a, j, Shl(1, j));
    AndBit(a, Shl(1, j) - 1, k);
    OnesBit(j, k);
  }

  lemma {:induction false} OnesBit(j: nat, k: nat)
    ensures Bit(Shl(1, j) - 1, k) <==> k < j
    decreases j
  {
    NoBits(k);
    if j > 0 {
      assert (Shl(1, j) - 1) / 2 == Shl(1, j - 1) - 1;
      if k > 0 { OnesBit(j - 1, k - 1); }
    }
  }

  // ---------------------------------------------------------------------------
  // Whole texts
  // ---------------------------------------------------------------------------

  function PieceByte(p: seq<byte>): byte
    requires Piece(p)
  {
    if |p| == 1 then p[0] else Merge(HexValue(p[1]), HexValue(p[2]))
  }

  function PieceBytes(ps: seq<seq<byte>>): (bs: seq<byte>)
    requires Pieces(ps)
    ensures |bs| == |ps|
  {
    seq(|ps|, k requires 0 <= k < |ps| => PieceByte(ps[k]))
  }

  lemma PieceBytesFirst(ps: seq<seq<byte>>, out: seq<byte>)
    requires ps != [] && Pieces(ps)
    ensures Pieces(ps[1..]) && out + PieceBytes(ps) == out + [PieceByte(ps[0])] + PieceBytes(ps[1..])
  {
    assert PieceBytes(ps) == [PieceByte(ps[0])] + PieceBytes(ps[1..]);
  }

  lemma PieceTaken(data: seq<byte>, i: nat, p: seq<byte>, out: seq<byte>, len: nat)
    requires Piece(p) && i + |p| <= |data| && data[i..i + |p|] == p && |out| < len
    ensures Unescaped(data, i, out, len) == Unescaped(data, i + |p|, out + [PieceByte(p)], len)
  {
    assert data[i] == p[0];
    if |p| == 3 { assert data[i + 1] == p[1] && data[i + 2] == p[2]; }
  }

  // Pieces for which there is room come out one byte each, in order.
  lemma {:induction false} PiecesDecoded(data: seq<byte>, i: nat, ps: seq<seq<byte>>, out: seq<byte>, len: nat)
    requires i <= |data| && Pieces(ps) && |out| + |ps| <= len && Join(ps) <= data[i..]
    ensures i + |Join(ps)| <= |data|
    ensures Unescaped(data, i, out, len) == Unescaped(data, i + |Join(ps)|, out + PieceBytes(ps), len)
    decreases |ps|
  {
    if ps == [] {
      Empty(out);
    } else {
      FirstPiece(data, i, ps);
      assert ps[0] in ps;
      PieceTaken(data, i, ps[0], out, len);
      PiecesDecoded(data, i + |ps[0]|, ps[1..], out + [PieceByte(ps[0])], len);
      PieceBytesFirst(ps, out);
    }
  }

  lemma PiecesInFront(ps: seq<seq<byte>>, more: seq<byte>, len: nat)
    requires Pieces(ps) && |ps| <= len
    ensures (Join(ps) + more)[|Join(ps)|..] == more
    ensures Unescaped(Join(ps) + more, 0, [], len) == Unescaped(Join(ps) + more, |Join(ps)|, PieceBytes(ps), len)
  {
    var data := Join(ps) + more;
    assert data[0..] == data;
    PiecesDecoded(data, 0, ps, [], len);
    Empty(PieceBytes(ps));
  }

  lemma TextDecodedTo(ps: seq<seq<byte>>, len: nat)
    requires Pieces(ps) && |ps| <= len
    ensures Unescaped(Join(ps), 0, [], len) == PieceBytes(ps)
  {
    PiecesInFront(ps, [], len);
    Empty(Join(ps));
  }

  // A plain character stands for itself, a triple for the number its two
  // hexadecimal digits write.
  lemma TextDecoded(ps: seq<seq<byte>>, len: nat)
    requires Pieces(ps) && |ps| <= len
    ensures var r := Unescaped(Join(ps), 0, [], len);
      && |r| == |ps|
      && (forall k :: 0 <= k < |ps| && |ps[k]| == 1 ==> r[k] == ps[k][0])
      && (forall k, h: nat, l: nat :: 0 <= k < |ps| && |ps[k]| == 3 && IsHex(ps[k][1], h) && IsHex(ps[k][2], l) ==>
            r[k] == 16 * h + l)
  {
    TextDecodedTo(ps, len);
    forall k, h: nat, l: nat | 0 <= k < |ps| && |ps[k]| == 3 && IsHex(ps[k][1], h) && IsHex(ps[k][2], l)
      ensures PieceBytes(ps)[k] == 16 * h + l
    {
      HexValueListed(ps[k][1]);
      HexValueListed(ps[k][2]);
      MergePair(h, l);
    }
  }

  // What is left of pieces that a full buffer meets: the plain characters.
  predicate Leftovers(qs: seq<seq<byte>>) {
    forall q :: q in qs ==> (Piece(q) && |q| == 1) || Skip(q)
  }

  function Kept(qs: seq<seq<byte>>): seq<byte> {
    if qs == [] then [] else (if |qs[0]| == 1 then qs[0] else []) + Kept(qs[1..])
  }

  lemma LeftoverTaken(data: seq<byte>, i: nat, q: seq<byte>, out: seq<byte>, len: nat)
    requires (Piece(q) && |q| == 1) || Skip(q)
    requires i + |q| <= |data| && data[i..i + |q|] == q && |out| >= len
    ensures Unescaped(data, i, out, len) == Unescaped(data, i + |q|, out + if |q| == 1 then q else [], len)
  {
    assert data[i] == q[0];
    Empty(out);
    assert |q| == 1 ==> q == [data[i]];
  }

  lemma FirstLeftover(data: seq<byte>, i: nat, qs: seq<seq<byte>>, end: seq<byte>)
    requires i <= |data| && qs != [] && data[i..] == Join(qs) + end
    ensures var n := |qs[0]|;
      i + n <= |data| && data[i..i + n] == qs[0] && data[i + n..] == Join(qs[1..]) + end
  {
    var q := qs[0];
    Assoc(q, Join(qs[1..]), end);
    SuffixAt(data, i, |q|);
    TakeThenDrop(data, i, |q|);
  }

  lemma {:induction false} LeftoversTaken(data: seq<byte>, i: nat, qs: seq<seq<byte>>, end: seq<byte>,
                                          out: seq<byte>, len: nat)
    requires i <= |data| && Leftovers(qs) && |out| >= len && (end == [] || end == [PERCENT])
    requires data[i..] == Join(qs) + end
    ensures Unescaped(data, i, out, len) == out + Kept(qs)
    decreases |qs|
  {
    if qs == [] {
      Empty(out);
      Empty(end);
      assert i < |data| ==> data[i] == data[i..][0] == PERCENT;
    } else {
      var q := qs[0];
      var kept := if |q| == 1 then q else [];
      assert q in qs;
      FirstLeftover(data, i, qs, end);
      LeftoverTaken(data, i, q, out, len);
      LeftoversTaken(data, i + |q|, qs[1..], end, out + kept, len);
      Assoc(out, kept, Kept(qs[1..]));
    }
  }

  // Once the buffer is full every percent sign is dropped with the character after
  // it, while plain characters still come out.
  lemma FullDropsPairs(ps: seq<seq<byte>>, qs: seq<seq<byte>>, end: seq<byte>)
    requires Pieces(ps) && Leftovers(qs) && (end == [] || end == [PERCENT])
    ensures Unescaped(Join(ps) + (Join(qs) + end), 0, [], |ps|) == PieceBytes(ps) + Kept(qs)
  {
    var more := Join(qs) + end;
    PiecesInFront(ps, more, |ps|);
    LeftoversTaken(Join(ps) + more, |Join(ps)|, qs, end, PieceBytes(ps), |ps|);
  }

  // A triple cut short by the end takes the terminator for its last digit.
  lemma CutTriple(ps: seq<seq<byte>>, c: byte, len: nat)
    requires Pieces(ps) && |ps| < len
    ensures Unescaped(Join(ps) + [PERCENT, c], 0, [], len) == PieceBytes(ps) + [Merge(HexValue(c), 0xD0)]
  {
    PiecesInFront(ps, [PERCENT, c], len);
  }

  lemma {:induction false} PlainCopied(data: seq<byte>, i: nat, len: nat)
    requires i <= |data| && PERCENT !in data
    ensures Unescaped(data, i, data[..i], len) == data
    decreases |data| - i
  {
    if i < |data| {
      assert data[i] in data && data[..i] + [data[i]] == data[..i + 1];
      PlainCopied(data, i + 1, len);
    } else {
      assert data[..i] == data;
    }
  }

  // Text without a percent sign comes out unchanged, whatever the room.
  lemma PlainUnchanged(data: seq<byte>, len: nat)
    requires 37 !in data
    ensures Unescaped(data, 0, [], len) == data
  {
    assert data[..0] == [];
    PlainCopied(data, 0, len);
  }

  // Every text that is not read past is decoded into any buffer that holds what comes
  // out; pieces for which there is room come out one byte each.
  method UrlComponentToUtf8(data: seq<byte>, utf8Buff: array<byte>, len: nat)
    requires 0 !in data && !ReadsPast(data, len)
    requires |Unescaped(data, 0, [], len)| <= utf8Buff.Length
    modifies utf8Buff
    ensures Holds(utf8Buff[..], Unescaped(data, 0, [], len), old(utf8Buff[..]))
    ensures forall ps: seq<seq<byte>> :: Pieces(ps) && |ps| <= len && data == Join(ps) ==>
      |ps| <= utf8Buff.Length && utf8Buff[..|ps|] == PieceBytes(ps)
    ensures PERCENT !in data ==> |data| <= utf8Buff.Length && utf8Buff[..|data|] == data
  {
    ReadsInsideExactly(data, len);
    Unescape(data, utf8Buff, len);
    if PERCENT !in data { PlainUnchanged(data, len); }
    forall ps: seq<seq<byte>> | Pieces(ps) && |ps| <= len && data == Join(ps)
      ensures Unescaped(data, 0, [], len) == PieceBytes(ps)
    {
      TextDecodedTo(ps, len);
    }
  }
}
