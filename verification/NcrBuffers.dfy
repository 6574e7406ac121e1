// The two string converters, which move a cursor through the input and fill the
// caller's buffer.
module NcrBuffers {
  import opened Utf8
  import opened Utf8Bits
  import opened Utf8Text
  import opened Ncr
  import opened Buffers
  import opened Sequences
  import Decimal

  // What the conversion of s still does after out.
  lemma ToReferencesUnfolds(s: seq<byte>, out: string, len: nat)
    requires Terminated(s) && s[0] != 0
    ensures Length(s) == 0 ==> ToReferences(s, out, len) == Outcome(-2, out)
    ensures Length(s) > 0 ==>
      var t := Written(Value(s[..Length(s)]));
      && Length(s) < |s| && Terminated(s[Length(s)..])
      && ToReferences(s, out, len) ==
         if |out| + |t| >= len then Outcome(-3, out) else ToReferences(s[Length(s)..], out + t, len)
  {
    if Length(s) > 0 { AfterCharacter(s); }
  }

  method UrlUtf8ToNcr(mem: seq<byte>, ncrBuff: array<char>, len: nat) returns (r: int)
    requires Terminated(mem) && len <= ncrBuff.Length
    modifies ncrBuff
    ensures r == ToReferences(mem, "", len).code
    ensures Holds(ncrBuff[..], ToReferences(mem, "", len).out, old(ncrBuff[..]))
  {
    ghost var goal, was := ToReferences(mem, "", len), ncrBuff[..];
    var currLen, next := 0, 0;
    ghost var s, out := mem, "";
    assert mem[0..] == mem;
    while mem[next] != 0
      invariant 0 <= next < |mem| && s == mem[next..] && Terminated(s)
      invariant currLen == |out| <= len && Holds(ncrBuff[..], out, was)
      invariant ToReferences(s, out, len) == goal
      decreases |mem| - next
    {
      ToReferencesUnfolds(s, out, len);
      var nBytes, ncrStr := Utf8ToNcr(mem, next);
      if nBytes == 0 {
        return -2;
      }
      if currLen + |ncrStr| >= len {
        return -3;
      }
      Append(ncrBuff, currLen, ncrStr, out, was);
      SuffixAt(mem, next, nBytes);
      s, out := s[nBytes..], out + ncrStr;
      currLen := currLen + |ncrStr|;
      next := next + nBytes;
    }
    return currLen;
  }

  // The reference always fits the source's scratch buffer of 20.
  method Utf8ToNcr(mem: seq<byte>, p: nat) returns (nBytes: nat, ncrStr: string)
    requires p <= |mem| && Terminated(mem[p..])
    ensures nBytes == Length(mem[p..]) && p + nBytes <= |mem|
    ensures nBytes > 0 ==> ncrStr == Written(Value(mem[p..][..nBytes])) && |ncrStr| <= 13
  {
    var unicode;
    nBytes, unicode := Decode(mem, p);
    ncrStr := "";
    if nBytes >= 1 {
      WrittenShort(unicode);
      ncrStr := "&#" + Decimal.Print(unicode) + ";";
    }
  }

  lemma ToUtf8Unfolds(s: string, out: seq<byte>, len: nat)
    requires Ended(s) && s[0] != NUL
    ensures Reference(s) < 0 ==> ToUtf8(s, out, len) == Outcome(-2, out)
    ensures Reference(s) >= 0 ==>
      var w, e := Encode(Reference(s)), Semicolon(s);
      && 0 <= e && e + 1 < |s| && Ended(s[e + 1..])
      && ToUtf8(s, out, len) ==
         if |out| + |w| > len then Outcome(-3, out) else ToUtf8(s[e + 1..], out + w, len)
  {
    if Reference(s) >= 0 { AfterReference(s); }
  }

  method UrlNcrToUtf8(mem: string, utf8Str: array<byte>, len: nat) returns (r: int)
    requires Ended(mem) && len <= utf8Str.Length
    modifies utf8Str
    ensures r == ToUtf8(mem, [], len).code
    ensures Holds(utf8Str[..], ToUtf8(mem, [], len).out, old(utf8Str[..]))
  {
    ghost var goal, was := ToUtf8(mem, [], len), utf8Str[..];
    var currLen, next := 0, 0;
    ghost var s: string, out: seq<byte> := mem, [];
    assert mem[0..] == mem;
    while mem[next] != NUL
      invariant 0 <= next < |mem| && s == mem[next..] && Ended(s)
      invariant currLen == |out| <= len && Holds(utf8Str[..], out, was)
      invariant ToUtf8(s, out, len) == goal
      decreases |mem| - next
    {
      ToUtf8Unfolds(s, out, len);
      var unicode, after := AnalizeNcrCharacter(mem, next);
      if unicode < 0 {
        return -2;
      }
      var w := Encoded(unicode);
      if currLen + |w| > len {
        return -3;
      }
      Append(utf8Str, currLen, w, out, was);
      SuffixAt(mem, next, after - next);
      s, out := s[after - next..], out + w;
      currLen := currLen + |w|;
      next := after;
    }
    return currLen;
  }
}
