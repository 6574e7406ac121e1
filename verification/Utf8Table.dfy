// The table of UTF-8 (section 2 of RFC 2279) read off directly: leading ones of the
// head, six bits for every further byte.
module Utf8Table {
  import opened Arithmetic
  import opened Utf8

  // How many ones a byte starts with, from the digit worth `top` on.
  function LeadingOnes(b: nat, top: nat): nat
    decreases top
  {
    if top == 0 || b < top then 0 else 1 + LeadingOnes(b - top, top / 2)
  }

  // The ones at the front of a byte tell how many bytes the character has; seven or
  // eight, which the table has not, count as five.
  lemma HeadCountsOnes(b: byte)
    ensures var n := LeadingOnes(b, 0x80);
      Head(b) == if n == 0 then 1 else if n == 1 then 0 else if n <= 6 then n else 5
  {
  }

  lemma ContinuesByOnes(b: byte)
    ensures Continues(b) <==> LeadingOnes(b, 0x80) == 1
  {
  }

  // How many numbers the free bits of the head of n bytes can hold.
  function HeadRange(n: nat): (m: nat)
    requires 1 <= n <= 6
    ensures m > 0
  {
    if n == 1 then 0x80 else if n == 2 then 0x20 else if n == 3 then 0x10 else if n == 4 then 8
    else if n == 5 then 4 else 2
  }

  // What stands behind a number, six bits a byte.
  function SixBitsEach(u: nat, bs: seq<byte>): nat
    decreases |bs|
  {
    if bs == [] then u else SixBitsEach(0x40 * u + bs[0] % 0x40, bs[1..])
  }

  lemma NextSix(u: nat, w: seq<byte>, i: nat)
    requires i <= |w|
    ensures SixBitsEach(u, w[i..]) == if i == |w| then u else SixBitsEach(0x40 * u + Low(w[i], 0x40), w[i + 1..])
  {
    if i < |w| { assert w[i..][1..] == w[i + 1..]; }
  }

  // The number when i bytes are read.
  function Read(w: seq<byte>, i: nat): nat
    requires 1 <= i <= |w| <= 6
  {
    if i == 1 then Low(w[0], HeadRange(|w|)) else 0x40 * Read(w, i - 1) + Low(w[i - 1], 0x40)
  }

  lemma {:induction false} ReadOn(w: seq<byte>, i: nat)
    requires 1 <= i <= |w| <= 6
    ensures SixBitsEach(Read(w, i), w[i..]) == Read(w, |w|)
    decreases |w| - i
  {
    NextSix(Read(w, i), w, i);
    if i < |w| {
      ReadOn(w, i + 1);
    }
  }

  lemma ReadShort(w: seq<byte>)
    requires 1 <= |w| <= 3
    ensures Read(w, |w|) == Value(w)
  {
    if |w| == 3 { assert Read(w, 3) == 0x40 * Read(w, 2) + Low(w[2], 0x40); }
  }

  lemma ReadFour(w: seq<byte>)
    requires 4 <= |w| <= 6
    ensures var h := Low(w[0], HeadRange(|w|));
      Read(w, 4) == h * 0x40000 + Low(w[1], 0x40) * 0x1000 + Low(w[2], 0x40) * 0x40 + Low(w[3], 0x40)
  {
    assert Read(w, 2) == 0x40 * Read(w, 1) + Low(w[1], 0x40);
    assert Read(w, 3) == 0x40 * Read(w, 2) + Low(w[2], 0x40);
  }

  lemma ReadLong(w: seq<byte>)
    requires 4 <= |w| <= 6
    ensures Value(w) == if |w| == 4 then Read(w, 4) else if |w| == 5 then Read(w, 5) else Read(w, 6)
  {
    ReadFour(w);
    if |w| > 4 { assert Read(w, 5) == 0x40 * Read(w, 4) + Low(w[4], 0x40); }
    if |w| > 5 { assert Read(w, 6) == 0x40 * Read(w, 5) + Low(w[5], 0x40); }
  }

  // The head gives the bits behind its ones and the zero after them, and every
  // further byte its six low bits.
  lemma ValueTakesSixBits(w: seq<byte>)
    requires 1 <= |w| <= 6
    ensures Value(w) == SixBitsEach(Low(w[0], HeadRange(|w|)), w[1..])
  {
    ReadOn(w, 1);
    if |w| <= 3 {
      ReadShort(w);
    } else {
      ReadLong(w);
    }
  }

  // Up to where each length goes.
  lemma EncodeLength(u: word)
    ensures |Encode(u)| == if u < 0x80 then 1 else if u < 0x800 then 2 else if u < 0x10000 then 3
      else if u < 0x8000000 then 4 else 5
  {
  }
}
