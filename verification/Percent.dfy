// Percent encoding (section 2.1 of RFC 3986): every byte of a UTF-8 string becomes
// a percent sign and two hexadecimal digits.
module Percent {
  import opened Arithmetic
  import opened Bits
  import opened Utf8
  import opened Utf8Text
  import opened Buffers
  import opened Sequences

  const PERCENT: byte := 0x25

  // ---------------------------------------------------------------------------
  // Bytes and hexadecimal digits
  // ---------------------------------------------------------------------------

  function HexDigit(x: nat): byte
    requires x < 0x10
  {
    if x <= 9 then x + 48 else x + 55
  }

  // Other characters wrap around as unsigned bytes do.
  function HexValue(c: byte): byte {
    if 97 <= c <= 102 then c - 87
    else if 65 <= c <= 70 then c - 55
    else (c - 48) % 0x100
  }

  // What is shifted out of a byte is lost.
  function Merge(high: byte, low: byte): byte {
    Or(Shl(high, 4), low) % 0x100
  }

  lemma HexOfDigit(x: nat)
    requires x < 0x10
    ensures HexValue(HexDigit(x)) == x && HexDigit(x) != 0 && HexDigit(x) != PERCENT
  {
  }

  // Splitting a byte into its halves and merging them gives the byte back.
  lemma MergeOfSplit(b: byte)
    ensures Shr(b, 4) == b / 0x10 && And(b, 0x0F) == b % 0x10
    ensures Merge(b / 0x10, b % 0x10) == b
  {
    ShiftAndMask(b, 4, 0x10);
    MergePair(b / 0x10, b % 0x10);
  }

  lemma MergePair(h: nat, l: nat)
    requires h < 0x10 && l < 0x10
    ensures Merge(h, l) == h * 0x10 + l
  {
    OrDisjoint(h, l, 4);
    ShlTimes(h, 4);
    ModSmall(h * 0x10 + l, 0x100);
  }

  // ---------------------------------------------------------------------------
  // Encoding
  // ---------------------------------------------------------------------------

  function Escaped(b: byte): seq<byte> {
    [PERCENT, HexDigit(b / 0x10), HexDigit(b % 0x10)]
  }

  function EscapedAll(bs: seq<byte>): (r: seq<byte>)
    ensures |r| == 3 * |bs|
  {
    if bs == [] then [] else EscapedAll(bs[..|bs| - 1]) + Escaped(bs[|bs| - 1])
  }

  // The string in terminated memory.
  function Text(mem: seq<byte>): (t: seq<byte>)
    requires Terminated(mem)
    ensures |t| < |mem| && mem[..|t|] == t && mem[|t|] == 0 && 0 !in t
    ensures forall i :: 0 <= i < |t| ==> mem[i] != 0
  {
    if mem[0] == 0 then []
    else
      TerminatedTail(mem, 1);
      [mem[0]] + Text(mem[1..])
  }

  lemma {:induction false} EscapedNotEnded(bs: seq<byte>)
    ensures 0 !in EscapedAll(bs)
  {
    if bs != [] {
      EscapedNotEnded(bs[..|bs| - 1]);
      HexOfDigit(bs[|bs| - 1] / 0x10);
      HexOfDigit(bs[|bs| - 1] % 0x10);
    }
  }

  ghost predicate Zeros(s: seq<byte>) {
    forall i :: 0 <= i < |s| ==> s[i] == 0
  }

  method StrLen(buf: array<byte>) returns (n: nat)
    requires Terminated(buf[..])
    ensures n < buf.Length && buf[n] == 0 && forall i :: 0 <= i < n ==> buf[i] != 0
  {
    n := 0;
    while buf[n] != 0
      invariant 0 <= n < buf.Length && forall i :: 0 <= i < n ==> buf[i] != 0
      decreases buf.Length - n
    {
      assert exists z :: 0 <= z < buf.Length && buf[z] == 0;
      n := n + 1;
    }
  }

  // The buffer holds the triples of done and zeros behind them.
  ghost predicate Filled(now: seq<byte>, done: seq<byte>) {
    3 * |done| <= |now| && now[..3 * |done|] == EscapedAll(done) && Zeros(now[3 * |done|..])
  }

  // How many bytes of a text have room.
  function Fitting(n: nat, len: nat): (k: nat)
    ensures k <= n
  {
    if 3 * n <= len then n else len / 3
  }

  // One more than the last index written: every triple takes a terminator along.
  function Needed(n: nat, currLen: nat, len: nat): nat
    decreases n
  {
    if n == 0 || currLen + 3 > len then 0
    else
      var more := Needed(n - 1, currLen + 3, len);
      if more > currLen + 4 then more else currLen + 4
  }

  lemma {:induction false} NeededForFitting(n: nat, currLen: nat, len: nat)
    requires currLen <= len
    ensures var k := Fitting(n, len - currLen);
      Needed(n, currLen, len) == if k == 0 then 0 else currLen + 3 * k + 1
    decreases n
  {
    if n > 0 && currLen + 3 <= len {
      NeededForFitting(n - 1, currLen + 3, len);
    }
  }

  // The terminator falls behind len bytes exactly if triples fill them up.
  lemma EncoderOverrunsExactly(n: nat, len: nat)
    ensures Needed(n, 0, len) > len <==> Fitting(n, len) > 0 && 3 * Fitting(n, len) == len
  {
    NeededForFitting(n, 0, len);
  }

  // One byte for a buffer of three.
  lemma EncoderOverrun()
    ensures Needed(1, 0, 3) == 4
  {
  }

  // The caller's buffer is zeroed; every triple is written where the string in it
  // ends. A full buffer keeps the triples that fit.
  method Utf8ToUrlComponent(mem: seq<byte>, urlComponent: array<byte>, len: nat) returns (r: int)
    requires Terminated(mem) && !Strays(mem)
    requires Needed(|Text(mem)|, 0, len) <= urlComponent.Length && Zeros(urlComponent[..])
    modifies urlComponent
    ensures ScanText(mem) != Accepts ==> r == -1 && urlComponent[..] == old(urlComponent[..])
    ensures ScanText(mem) == Accepts ==>
      && r == (if 3 * |Text(mem)| <= len then 3 * |Text(mem)| else -2)
      && Filled(urlComponent[..], Text(mem)[..Fitting(|Text(mem)|, len)])
  {
    StallsExactly(mem);
    var isUtf8, _ := IsUtf8Str(mem);
    if !isUtf8 {
      return -1;
    }
    r := FillTriples(mem, urlComponent, len);
  }

  method FillTriples(mem: seq<byte>, urlComponent: array<byte>, len: nat) returns (r: int)
    requires Terminated(mem)
    requires Needed(|Text(mem)|, 0, len) <= urlComponent.Length && Filled(urlComponent[..], [])
    modifies urlComponent
    ensures r == if 3 * |Text(mem)| <= len then 3 * |Text(mem)| else -2
    ensures Filled(urlComponent[..], Text(mem)[..Fitting(|Text(mem)|, len)])
  {
    ghost var text := Text(mem);
    var currLen, cursor := 0, 0;
    while mem[cursor] != 0
      invariant 0 <= cursor <= |text| && currLen == 3 * cursor <= len
      invariant Needed(|text| - cursor, currLen, len) <= urlComponent.Length
      invariant Filled(urlComponent[..], text[..cursor])
      decreases |text| - cursor
    {
      if currLen + 3 > len {
        assert cursor == Fitting(|text|, len);
        return -2;
      }
      PutTriple(urlComponent, mem[cursor], text[..cursor]);
      assert text[..cursor + 1] == text[..cursor] + [mem[cursor]];
      cursor := cursor + 1;
      currLen := currLen + 3;
    }
    EndsAt(mem, cursor);
    return currLen;
  }

  lemma EndsAt(mem: seq<byte>, cursor: nat)
    requires Terminated(mem) && cursor <= |Text(mem)| && mem[cursor] == 0
    ensures cursor == |Text(mem)|
  {
  }

  // sprintf of one triple to the end of the string in the buffer.
  method PutTriple(buf: array<byte>, b: byte, ghost done: seq<byte>)
    requires 3 * |done| + 3 < buf.Length && Filled(buf[..], done)
    modifies buf
    ensures Filled(buf[..], done + [b])
  {
    var end := EndOf(buf, done);
    assert forall i :: end <= i < buf.Length ==> buf[i] == buf[..][end..][i - end] == 0;
    MergeOfSplit(b);
    buf[end], buf[end + 1], buf[end + 2], buf[end + 3] := PERCENT, HexDigit(Shr(b, 4)), HexDigit(And(b, 0x0F)), 0;
    assert (done + [b])[..|done|] == done;
    assert buf[..][..end + 3] == buf[..][..end] + Escaped(b);
  }

  method EndOf(buf: array<byte>, ghost done: seq<byte>) returns (n: nat)
    requires 3 * |done| < buf.Length && Filled(buf[..], done)
    ensures n == 3 * |done|
  {
    EscapedNotEnded(done);
    assert buf[..][3 * |done|] == buf[..][3 * |done|..][0] == 0;
    assert forall i :: 0 <= i < 3 * |done| ==> buf[i] == EscapedAll(done)[i];
    n := StrLen(buf);
  }

  // ---------------------------------------------------------------------------
  // Decoding
  // ---------------------------------------------------------------------------

  function ByteAt(data: seq<byte>, i: nat): byte {
    if i < |data| then data[i] else 0
  }

  // A percent sign without room left is skipped with the digit after it.
  function Unescaped(data: seq<byte>, i: nat, out: seq<byte>, len: nat): seq<byte>
    decreases |data| - i
  {
    if i >= |data| then out
    else if data[i] != PERCENT then Unescaped(data, i + 1, out + [data[i]], len)
    else if |out| < len then
      Unescaped(data, i + 3, out + [Merge(HexValue(ByteAt(data, i + 1)), HexValue(ByteAt(data, i + 2)))], len)
    else Unescaped(data, i + 2, out, len)
  }

  // Decoding reads no further than the terminator.
  predicate ReadsInside(data: seq<byte>, i: nat, n: nat, len: nat)
    decreases |data| - i
  {
    i < |data| ==>
      if data[i] != PERCENT then ReadsInside(data, i + 1, n + 1, len)
      else if n < len then i + 2 <= |data| && ReadsInside(data, i + 3, n + 1, len)
      else ReadsInside(data, i + 2, n, len)
  }

  // The pieces of a text that take a place in the buffer, and the pieces that are
  // skipped when it is full.
  predicate Piece(p: seq<byte>) {
    (|p| == 1 && p[0] != PERCENT) || (|p| == 3 && p[0] == PERCENT)
  }

  predicate Skip(p: seq<byte>) {
    |p| == 2 && p[0] == PERCENT
  }

  predicate Pieces(ps: seq<seq<byte>>) {
    forall p :: p in ps ==> Piece(p)
  }

  predicate Skips(ss: seq<seq<byte>>) {
    forall s :: s in ss ==> Skip(s)
  }

  // A percent sign at the very end, with room, that no triple before it takes along.
  ghost predicate ReadsPast(data: seq<byte>, len: nat) {
    exists ps :: Pieces(ps) && |ps| < len && data == Join(ps) + [PERCENT]
  }

  // A plain character behind as many pieces as there is room for and any skips.
  ghost predicate Overfills(data: seq<byte>, len: nat) {
    exists ps, ss :: Pieces(ps) && Skips(ss) && |ps| == len && PlainAt(data, Join(ps) + Join(ss))
  }

  predicate PlainAt(data: seq<byte>, front: seq<byte>) {
    front < data && data[|front|] != PERCENT
  }

  // How many bytes come out.
  function Produced(data: seq<byte>, i: nat, n: nat, len: nat): (r: nat)
    ensures r >= n
    decreases |data| - i
  {
    if i >= |data| then n
    else if data[i] != PERCENT then Produced(data, i + 1, n + 1, len)
    else if n < len then Produced(data, i + 3, n + 1, len)
    else Produced(data, i + 2, n, len)
  }

  lemma {:induction false} ProducedIsLength(data: seq<byte>, i: nat, out: seq<byte>, len: nat)
    ensures |Unescaped(data, i, out, len)| == Produced(data, i, |out|, len)
    decreases |data| - i
  {
    if i < |data| {
      if data[i] != PERCENT {
        ProducedIsLength(data, i + 1, out + [data[i]], len);
      } else if |out| < len {
        var b := Merge(HexValue(ByteAt(data, i + 1)), HexValue(ByteAt(data, i + 2)));
        ProducedIsLength(data, i + 3, out + [b], len);
      } else {
        ProducedIsLength(data, i + 2, out, len);
      }
    }
  }

  lemma FirstPiece(data: seq<byte>, i: nat, ps: seq<seq<byte>>)
    requires i <= |data| && ps != [] && Join(ps) <= data[i..]
    ensures var p := ps[0];
      |p| <= |data| - i && data[i..i + |p|] == p && Join(ps[1..]) <= data[i + |p|..]
  {
    var p := ps[0];
    assert data[i..][..|p|] == p && data[i..][|p|..] == data[i + |p|..];
  }

  // While there is room, pieces are taken one by one.
  lemma {:induction false} PiecesTaken(data: seq<byte>, i: nat, n: nat, ps: seq<seq<byte>>, len: nat)
    requires i <= |data| && Pieces(ps) && n + |ps| <= len && Join(ps) <= data[i..]
    ensures var j := i + |Join(ps)|;
      && j <= |data|
      && ReadsInside(data, i, n, len) == ReadsInside(data, j, n + |ps|, len)
      && Produced(data, i, n, len) == Produced(data, j, n + |ps|, len)
    decreases |ps|
  {
    if ps != [] {
      FirstPiece(data, i, ps);
      assert Piece(ps[0]) && ps[0][0] == data[i];
      PiecesTaken(data, i + |ps[0]|, n + 1, ps[1..], len);
    }
  }

  lemma {:induction false} SkipsTaken(data: seq<byte>, i: nat, n: nat, ss: seq<seq<byte>>, len: nat)
    requires i <= |data| && Skips(ss) && n >= len && Join(ss) <= data[i..]
    ensures var j := i + |Join(ss)|; j <= |data| && Produced(data, i, n, len) == Produced(data, j, n, len)
    decreases |ss|
  {
    if ss != [] {
      FirstPiece(data, i, ss);
      assert Skip(ss[0]) && ss[0][0] == data[i];
      SkipsTaken(data, i + 2, n, ss[1..], len);
    }
  }

  lemma {:induction false} FullReadsInside(data: seq<byte>, i: nat, n: nat, len: nat)
    requires n >= len
    ensures ReadsInside(data, i, n, len)
    decreases |data| - i
  {
    if i < |data| {
      if data[i] != PERCENT {
        FullReadsInside(data, i + 1, n + 1, len);
      } else {
        FullReadsInside(data, i + 2, n, len);
      }
    }
  }

  lemma PutPiece(data: seq<byte>, i: nat, k: nat, ps: seq<seq<byte>>) returns (qs: seq<seq<byte>>)
    requires i + k <= |data| && Join(ps) <= data[i + k..]
    ensures qs == [data[i..i + k]] + ps && Join(qs) <= data[i..]
    ensures |Join(qs)| == k + |Join(ps)| && data[i..][|Join(qs)|..] == data[i + k..][|Join(ps)|..]
  {
    qs := [data[i..i + k]] + ps;
    assert qs[1..] == ps;
    assert data[i..] == data[i..i + k] + data[i + k..];
  }

  lemma {:induction false} PastPieces(data: seq<byte>, i: nat, n: nat, len: nat) returns (ps: seq<seq<byte>>)
    requires !ReadsInside(data, i, n, len)
    ensures i < |data| && Pieces(ps) && n + |ps| < len && Join(ps) <= data[i..]
    ensures data[i..][|Join(ps)|..] == [PERCENT]
    decreases |data| - i
  {
    if n >= len {
      FullReadsInside(data, i, n, len);
    } else if data[i] != PERCENT {
      ps := PastPieces(data, i + 1, n + 1, len);
      ps := PutPiece(data, i, 1, ps);
    } else if i + 1 == |data| {
      ps := [];
    } else {
      ps := PastPieces(data, i + 3, n + 1, len);
      ps := PutPiece(data, i, 3, ps);
    }
  }

  // Decoding reads behind the terminator exactly on a last percent sign with room
  // that is not part of a triple.
  lemma ReadsInsideExactly(data: seq<byte>, len: nat)
    ensures ReadsInside(data, 0, 0, len) <==> !ReadsPast(data, len)
  {
    assert data[0..] == data;
    if !ReadsInside(data, 0, 0, len) {
      var ps := PastPieces(data, 0, 0, len);
      assert data == Join(ps) + [PERCENT];
    }
    if ps :| Pieces(ps) && |ps| < len && data == Join(ps) + [PERCENT] {
      PiecesTaken(data, 0, 0, ps, len);
    }
  }

  lemma EndsOtherwise(data: seq<byte>, len: nat)
    requires data == [] || data[|data| - 1] != PERCENT
    ensures ReadsInside(data, 0, 0, len)
  {
    ReadsInsideExactly(data, len);
  }

  lemma {:induction false} OverfillingSkips(data: seq<byte>, i: nat, len: nat) returns (ss: seq<seq<byte>>)
    requires Produced(data, i, len, len) > len
    ensures i < |data| && Skips(ss) && PlainAt(data[i..], Join(ss))
    decreases |data| - i
  {
    ss := [];
    if data[i] == PERCENT {
      ss := OverfillingSkips(data, i + 2, len);
      ss := PutPiece(data, i, 2, ss);
    }
  }

  lemma {:induction false} OverfillingPieces(data: seq<byte>, i: nat, n: nat, len: nat)
    returns (ps: seq<seq<byte>>, ss: seq<seq<byte>>)
    requires n <= len && Produced(data, i, n, len) > len
    ensures i < |data| && Pieces(ps) && Skips(ss) && n + |ps| == len
    ensures Join(ps) <= data[i..] && PlainAt(data[i..][|Join(ps)|..], Join(ss))
    decreases |data| - i
  {
    if n == len {
      ps := [];
      ss := OverfillingSkips(data, i, len);
    } else if data[i] != PERCENT {
      ps, ss := OverfillingPieces(data, i + 1, n + 1, len);
      ps := PutPiece(data, i, 1, ps);
    } else {
      ps, ss := OverfillingPieces(data, i + 3, n + 1, len);
      ps := PutPiece(data, i, 3, ps);
    }
  }

  lemma PlainOverfills(data: seq<byte>, ps: seq<seq<byte>>, ss: seq<seq<byte>>, len: nat)
    requires Pieces(ps) && Skips(ss) && |ps| == len && PlainAt(data, Join(ps) + Join(ss))
    ensures Produced(data, 0, 0, len) > len
  {
    var k := |Join(ps)|;
    assert data[0..] == data && Join(ps) <= data && Join(ss) <= data[k..];
    PiecesTaken(data, 0, 0, ps, len);
    SkipsTaken(data, k, len, ss, len);
  }

  // More than len bytes come out exactly if a plain character meets a full buffer.
  lemma OverfillsExactly(data: seq<byte>, len: nat)
    ensures |Unescaped(data, 0, [], len)| > len <==> Overfills(data, len)
  {
    ProducedIsLength(data, 0, [], len);
    if Produced(data, 0, 0, len) > len {
      var ps, ss := OverfillingPieces(data, 0, 0, len);
      assert data[0..] == data == Join(ps) + data[|Join(ps)|..];
      assert PlainAt(data, Join(ps) + Join(ss));
    }
    if ps, ss :| Pieces(ps) && Skips(ss) && |ps| == len && PlainAt(data, Join(ps) + Join(ss)) {
      PlainOverfills(data, ps, ss, len);
    }
  }

  // A lone percent sign is read past; a second plain character overfills one byte.
  lemma DecoderOverruns(a: byte, b: byte)
    requires a != PERCENT && b != PERCENT
    ensures ReadsPast([PERCENT], 1) && Overfills([a, b], 1)
  {
    ReadsInsideExactly([PERCENT], 1);
    var ps, ss: seq<seq<byte>> := [[a]], [];
    assert Pieces(ps) && Skips(ss) && Join(ps) + Join(ss) == [a];
    assert PlainAt([a, b], Join(ps) + Join(ss));
  }

  lemma UnescapedGrows(data: seq<byte>, i: nat, out: seq<byte>, len: nat)
    ensures |Unescaped(data, i, out, len)| >= |out|
    decreases |data| - i
  {
  }

  method Unescape(data: seq<byte>, utf8Buff: array<byte>, len: nat)
    requires ReadsInside(data, 0, 0, len) && |Unescaped(data, 0, [], len)| <= utf8Buff.Length
    modifies utf8Buff
    ensures Holds(utf8Buff[..], Unescaped(data, 0, [], len), old(utf8Buff[..]))
  {
    ghost var goal, was := Unescaped(data, 0, [], len), utf8Buff[..];
    ghost var out: seq<byte> := [];
    var currLen, i := 0, 0;
    while i < |data|
      invariant 0 <= i && currLen == |out| && ReadsInside(data, i, currLen, len)
      invariant Holds(utf8Buff[..], out, was) && Unescaped(data, i, out, len) == goal
      decreases |data| - i
    {
      ghost var b: byte;
      if data[i] == PERCENT {
        if currLen < len {
          var ch1, ch2 := HexValue(ByteAt(data, i + 1)), HexValue(ByteAt(data, i + 2));
          UnescapedGrows(data, i + 3, out + [Merge(ch1, ch2)], len);
          Append(utf8Buff, currLen, [Merge(ch1, ch2)], out, was);
          out := out + [Merge(ch1, ch2)];
          currLen := currLen + 1;
          i := i + 3;
        } else {
          i := i + 2;
        }
      } else {
        UnescapedGrows(data, i + 1, out + [data[i]], len);
        Append(utf8Buff, currLen, [data[i]], out, was);
        out := out + [data[i]];
        currLen := currLen + 1;
        i := i + 1;
      }
    }
  }

  // ---------------------------------------------------------------------------
  // Round trip
  // ---------------------------------------------------------------------------

  lemma {:induction false} EscapedAt(bs: seq<byte>, k: nat)
    requires k < |bs|
    ensures var data := EscapedAll(bs);
      data[3 * k] == PERCENT && data[3 * k + 1] == HexDigit(bs[k] / 0x10) && data[3 * k + 2] == HexDigit(bs[k] % 0x10)
    decreases |bs|
  {
    var front := bs[..|bs| - 1];
    if k < |front| {
      EscapedAt(front, k);
    }
  }

  // From any triple on, decoding gives the bytes back, and reads inside the text.
  lemma {:induction false} UnescapedEscaped(bs: seq<byte>, k: nat, len: nat)
    requires k <= |bs| <= len
    ensures Unescaped(EscapedAll(bs), 3 * k, bs[..k], len) == bs
    ensures ReadsInside(EscapedAll(bs), 3 * k, k, len)
    decreases |bs| - k
  {
    if k == |bs| {
      assert bs[..k] == bs;
    } else {
      var data := EscapedAll(bs);
      EscapedAt(bs, k);
      HexOfDigit(bs[k] / 0x10);
      HexOfDigit(bs[k] % 0x10);
      MergeOfSplit(bs[k]);
      assert bs[..k] + [bs[k]] == bs[..k + 1];
      UnescapedEscaped(bs, k + 1, len);
    }
  }

  // Every accepted string comes back from its encoding, which is three times as long.
  lemma PercentRoundTrip(mem: seq<byte>, len: nat)
    requires Terminated(mem) && ScanText(mem) == Accepts && |Text(mem)| <= len
    ensures var encoded := EscapedAll(Text(mem));
      && |encoded| == 3 * |Text(mem)| && 0 !in encoded && !ReadsPast(encoded, len)
      && Unescaped(encoded, 0, [], len) == Text(mem)
  {
    EscapedNotEnded(Text(mem));
    UnescapedEscaped(Text(mem), 0, len);
    ReadsInsideExactly(EscapedAll(Text(mem)), len);
    assert Text(mem)[..0] == [];
  }
}
