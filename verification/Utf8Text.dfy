// Whole UTF-8 strings in terminated memory: the character scanners and the check
// that a string is UTF-8.
module Utf8Text {
  import opened Bits
  import opened Sequences
  import opened Utf8
  import opened Utf8Bits

  // ---------------------------------------------------------------------------
  // The scanners, on memory `mem` from a cursor on
  // ---------------------------------------------------------------------------

  method CharacterBody(mem: seq<byte>, p: nat, nBytes: nat) returns (r: nat)
    requires p <= |mem| && Terminated(mem[p..]) && (nBytes > 1 ==> mem[p] != 0)
    ensures r == Body(mem[p..], nBytes)
  {
    if nBytes == 0 {
      return 0;
    }
    if nBytes > 1 {
      ghost var s := mem[p..];
      var i := 1;
      while i < nBytes
        invariant 1 <= i <= nBytes && i <= |s|
        invariant forall j :: 1 <= j < i ==> Continues(s[j])
        invariant BodyFrom(s, i, nBytes) == Body(s, nBytes)
      {
        ContinuedNotEnded(s, i);
        SuffixAt(mem, p, i);
        ContinuesMasked(mem[p + i]);
        if And(mem[p + i], 0xC0) != 0x80 {
          return i;
        }
        i := i + 1;
      }
    }
    return nBytes;
  }

  // nBytes is 0 where no character starts; otherwise unicode is its value.
  method Decode(mem: seq<byte>, p: nat) returns (nBytes: nat, unicode: nat)
    requires p <= |mem| && Terminated(mem[p..])
    ensures nBytes == Length(mem[p..]) && p + nBytes <= |mem|
    ensures nBytes > 0 ==> unicode == Value(mem[p..][..nBytes])
  {
    nBytes := Head(mem[p]);
    nBytes := CharacterBody(mem, p, nBytes);
    unicode := 0;
    ghost var w := mem[p..][..nBytes];
    assert forall i :: 0 <= i < nBytes ==> w[i] == mem[p + i];
    if nBytes == 1 {
      ShiftAndMask(mem[p], 7, 0x80);
      unicode := And(mem[p], 0x7F);
    } else if nBytes == 2 {
      unicode := JoinTwo(mem[p], mem[p + 1]);
      assert w == [mem[p], mem[p + 1]];
    } else if nBytes == 3 {
      unicode := JoinThree(mem[p], mem[p + 1], mem[p + 2]);
      assert w == [mem[p], mem[p + 1], mem[p + 2]];
    } else if nBytes == 4 {
      unicode := JoinFour(mem[p], mem[p + 1], mem[p + 2], mem[p + 3]);
      assert w == [mem[p], mem[p + 1], mem[p + 2], mem[p + 3]];
    } else if nBytes == 5 {
      unicode := JoinFive(mem[p], mem[p + 1], mem[p + 2], mem[p + 3], mem[p + 4]);
      assert w == [mem[p], mem[p + 1], mem[p + 2], mem[p + 3], mem[p + 4]];
    } else if nBytes == 6 {
      unicode := JoinSix(mem[p], mem[p + 1], mem[p + 2], mem[p + 3], mem[p + 4], mem[p + 5]);
      assert w == [mem[p], mem[p + 1], mem[p + 2], mem[p + 3], mem[p + 4], mem[p + 5]];
    }
  }

  // ---------------------------------------------------------------------------
  // Is it UTF-8?
  // ---------------------------------------------------------------------------

  // A stray continuation byte where a character should start has length 0, is
  // accepted, and the scan never gets past it.
  datatype Scan = Accepts | Rejects | Stalls

  function ScanText(s: seq<byte>): Scan
    requires Terminated(s)
    decreases |s|
  {
    if s[0] == 0 then Accepts
    else if Length(s) != Head(s[0]) then Rejects
    else if Length(s) == 0 then Stalls
    else
      AfterCharacter(s);
      ScanText(s[Length(s)..])
  }

  // The characters the scan steps over.
  ghost function Characters(s: seq<byte>): seq<seq<byte>>
    requires Terminated(s)
    decreases |s|
  {
    if s[0] == 0 || Length(s) != Head(s[0]) || Length(s) == 0 then []
    else
      AfterCharacter(s);
      [s[..Length(s)]] + Characters(s[Length(s)..])
  }

  lemma AfterCharacter(s: seq<byte>)
    requires Terminated(s) && s[0] != 0 && Length(s) > 0
    ensures Length(s) < |s| && Terminated(s[Length(s)..])
  {
    ContinuedNotEnded(s, Length(s));
  }

  // Where the scan stands, from `at` on, until it ends.
  ghost function Cursors(s: seq<byte>, at: nat): seq<nat>
    requires Terminated(s)
    decreases |s|
  {
    if s[0] == 0 || Length(s) != Head(s[0]) || Length(s) == 0 then [at]
    else
      AfterCharacter(s);
      [at] + Cursors(s[Length(s)..], at + Length(s))
  }

  // next is moved past the character only if it is one.
  method IsUtf8Character(mem: seq<byte>, p: nat) returns (isOne: bool, next: nat)
    requires p <= |mem| && Terminated(mem[p..])
    ensures isOne <==> Length(mem[p..]) == Head(mem[p..][0])
    ensures next == if isOne then p + Length(mem[p..]) else p
  {
    var nBytes := Head(mem[p]);
    var length := CharacterBody(mem, p, nBytes);
    isOne := nBytes == length;
    next := if isOne then p + nBytes else p;
  }

  // Where words are followed by a stray continuation byte the source loops for ever.
  method IsUtf8Str(mem: seq<byte>) returns (isUtf8: bool, ghost cursors: seq<nat>)
    requires Terminated(mem) && !Strays(mem)
    ensures isUtf8 <==> ScanText(mem) == Accepts
    ensures cursors == Cursors(mem, 0)
  {
    StallsExactly(mem);
    isUtf8 := true;
    var chrStr := 0;
    ghost var before: seq<nat>, rest := [], mem;
    assert mem[0..] == mem;
    while isUtf8 && mem[chrStr] != 0
      invariant 0 <= chrStr < |mem| && rest == mem[chrStr..] && Terminated(rest)
      invariant Standing(ScanText(mem), Cursors(mem, 0), rest, chrStr, before, isUtf8)
      decreases isUtf8, |mem| - chrStr
    {
      isUtf8, chrStr, rest, before := StepOver(mem, chrStr, rest, before, ScanText(mem), Cursors(mem, 0));
    }
    cursors := before + [chrStr];
  }

  method StepOver(mem: seq<byte>, p: nat, ghost s: seq<byte>, ghost before: seq<nat>, ghost scan: Scan,
                  ghost all: seq<nat>)
    returns (isOne: bool, next: nat, ghost rest: seq<byte>, ghost after: seq<nat>)
    requires p < |mem| && s == mem[p..] && Terminated(s) && mem[p] != 0
    requires Standing(scan, all, s, p, before, true) && scan != Stalls
    ensures next < |mem| && rest == mem[next..] && Terminated(rest) && (if isOne then next > p else next == p)
    ensures Standing(scan, all, rest, next, after, isOne)
  {
    ghost var n := Length(s);
    isOne, next := IsUtf8Character(mem, p);
    ScanStep(scan, all, s, p, before);
    if isOne {
      SuffixAt(mem, p, n);
      rest, after := s[n..], before + [p];
    } else {
      rest, after := s, before;
    }
  }

  // The cursor stands at p, before s, after the positions before; ok tells whether
  // the scan is still going. The whole scan ends as `scan` with the positions `all`.
  ghost predicate Standing(scan: Scan, all: seq<nat>, s: seq<byte>, p: nat, before: seq<nat>, ok: bool)
    requires Terminated(s)
  {
    && scan == (if ok then ScanText(s) else Rejects)
    && all == before + (if ok then Cursors(s, p) else [p])
  }

  lemma ScanStep(scan: Scan, all: seq<nat>, s: seq<byte>, p: nat, before: seq<nat>)
    requires Terminated(s) && Standing(scan, all, s, p, before, true) && s[0] != 0 && scan != Stalls
    ensures var n := Length(s);
      if n == Head(s[0])
      then 0 < n < |s| && Terminated(s[n..]) && Standing(scan, all, s[n..], p + n, before + [p], true)
      else Standing(scan, all, s, p, before, false)
  {
    ScanUnfolds(s, p);
    if Length(s) == Head(s[0]) {
      Glue(before, p, Cursors(s[Length(s)..], p + Length(s)));
    }
  }

  lemma ScanUnfolds(s: seq<byte>, at: nat)
    requires Terminated(s) && s[0] != 0 && ScanText(s) != Stalls
    ensures var n := Length(s);
      if n == Head(s[0]) then 0 < n < |s| && Terminated(s[n..]) && ScanText(s) == ScanText(s[n..])
                              && Cursors(s, at) == [at] + Cursors(s[n..], at + n)
      else ScanText(s) == Rejects && Cursors(s, at) == [at]
  {
    if Length(s) == Head(s[0]) { AfterCharacter(s); }
  }

  lemma Glue(a: seq<nat>, p: nat, b: seq<nat>)
    ensures a + ([p] + b) == a + [p] + b
  {
  }

  // ---------------------------------------------------------------------------
  // Strings of words
  // ---------------------------------------------------------------------------

  predicate TextWord(w: seq<byte>) {
    IsWord(w) && 0 !in w
  }

  predicate TextWords(ws: seq<seq<byte>>) {
    forall i :: 0 <= i < |ws| ==> TextWord(ws[i])
  }

  // Where the words begin when they are put one after the other from `at` on, and
  // where the last one ends.
  function Boundaries(ws: seq<seq<byte>>, at: nat): (r: seq<nat>)
    ensures |r| == |ws| + 1
  {
    if ws == [] then [at] else [at] + Boundaries(ws[1..], at + |ws[0]|)
  }

  lemma JoinFirst(ws: seq<seq<byte>>, tail: seq<byte>)
    requires ws != [] && TextWord(ws[0]) && Terminated(Join(ws[1..]) + tail)
    ensures var s := Join(ws) + tail;
      && Terminated(s) && s[0] == ws[0][0] != 0 && Length(s) == |ws[0]| == Head(s[0])
      && s[..|ws[0]|] == ws[0] && s[|ws[0]|..] == Join(ws[1..]) + tail
  {
    assert Join(ws) + tail == ws[0] + (Join(ws[1..]) + tail);
    WordLength(ws[0], Join(ws[1..]) + tail);
    assert ws[0][0] in ws[0];
  }

  lemma JoinTerminated(ws: seq<seq<byte>>, tail: seq<byte>)
    requires Terminated(tail)
    ensures Terminated(Join(ws) + tail)
  {
  }

  // The scan passes over words.
  lemma {:induction false} WordsPassed(ws: seq<seq<byte>>, tail: seq<byte>)
    requires TextWords(ws) && Terminated(tail)
    ensures Terminated(Join(ws) + tail) && ScanText(Join(ws) + tail) == ScanText(tail)
    decreases |ws|
  {
    JoinTerminated(ws, tail);
    if ws == [] {
      assert Join(ws) + tail == tail;
    } else {
      WordsPassed(ws[1..], tail);
      JoinFirst(ws, tail);
    }
  }

  // The scan finds the words again.
  lemma {:induction false} WordsFound(ws: seq<seq<byte>>, tail: seq<byte>)
    requires TextWords(ws) && Terminated(tail) && tail[0] == 0
    ensures Terminated(Join(ws) + tail) && Characters(Join(ws) + tail) == ws
    decreases |ws|
  {
    JoinTerminated(ws, tail);
    if ws == [] {
      assert Join(ws) + tail == tail;
    } else {
      WordsFound(ws[1..], tail);
      JoinFirst(ws, tail);
      assert ws == [ws[0]] + ws[1..];
    }
  }

  lemma BoundariesCons(all: seq<seq<byte>>, w: seq<byte>, ws: seq<seq<byte>>, at: nat)
    requires all == [w] + ws
    ensures Boundaries(all, at) == [at] + Boundaries(ws, at + |w|)
  {
    assert all[1..] == ws;
  }

  lemma CursorTaken(s: seq<byte>, at: nat)
    requires Terminated(s) && s[0] != 0 && 0 < Length(s) == Head(s[0]) < |s| && Terminated(s[Length(s)..])
    ensures Cursors(s, at) == [at] + Cursors(s[Length(s)..], at + Length(s))
  {
  }

  lemma CharacterTaken(s: seq<byte>)
    requires Terminated(s) && s[0] != 0 && 0 < Length(s) == Head(s[0]) < |s| && Terminated(s[Length(s)..])
    ensures Characters(s) == [s[..Length(s)]] + Characters(s[Length(s)..])
  {
  }

  // And stands exactly at the boundaries of what it finds.
  lemma {:induction false} CursorsAreBoundaries(s: seq<byte>, at: nat)
    requires Terminated(s)
    ensures Cursors(s, at) == Boundaries(Characters(s), at)
    decreases |s|
  {
    if s[0] != 0 && 0 < Length(s) == Head(s[0]) {
      AfterCharacter(s);
      var w, rest := s[..Length(s)], s[Length(s)..];
      CursorsAreBoundaries(rest, at + |w|);
      CharacterTaken(s);
      BoundariesCons(Characters(s), w, Characters(rest), at);
      CursorTaken(s, at);
    } else {
      NothingTaken(s, at);
    }
  }

  lemma NothingTaken(s: seq<byte>, at: nat)
    requires Terminated(s) && !(s[0] != 0 && 0 < Length(s) == Head(s[0]))
    ensures Cursors(s, at) == [at] && Characters(s) == []
  {
  }

  // And it passes over nothing else: what it has passed is made of words, and the
  // byte behind them tells how it ends.
  lemma {:induction false} PassedAreWords(s: seq<byte>)
    requires Terminated(s)
    ensures TextWords(Characters(s)) && Join(Characters(s)) < s
    ensures ScanText(s) == Accepts <==> s[|Join(Characters(s))|] == 0
    ensures ScanText(s) == Stalls <==> Continues(s[|Join(Characters(s))|])
    decreases |s|
  {
    var n := Length(s);
    if s[0] != 0 && n == Head(s[0]) && n > 0 {
      AfterCharacter(s);
      PassedAreWords(s[n..]);
      FirstIsWord(s);
      PutInFront(s, n, Characters(s[n..]));
    }
  }

  lemma PutInFront(s: seq<byte>, n: nat, ws: seq<seq<byte>>)
    requires 0 < n < |s| && TextWord(s[..n]) && TextWords(ws) && Join(ws) < s[n..]
    ensures TextWords([s[..n]] + ws)
    ensures Join([s[..n]] + ws) < s && s[|Join([s[..n]] + ws)|] == s[n..][|Join(ws)|]
  {
    var vs := [s[..n]] + ws;
    assert vs[1..] == ws;
    assert s == s[..n] + s[n..];
  }

  // The check accepts a string exactly if it is made of words.
  lemma AcceptsExactly(t: seq<byte>)
    requires 0 !in t
    ensures ScanText(t + [0]) == Accepts <==> exists ws: seq<seq<byte>> :: TextWords(ws) && Join(ws) == t
  {
    var s := t + [0];
    if ScanText(s) == Accepts {
      PassedAreWords(s);
      var w := Join(Characters(s));
      assert forall i :: 0 <= i < |t| ==> s[i] == t[i] != 0;
      assert w == s[..|t|] == t;
    }
    if ws: seq<seq<byte>> :| TextWords(ws) && Join(ws) == t {
      WordsPassed(ws, [0]);
    }
  }

  // Somewhere behind words, where a character should start, stands a continuation
  // byte.
  ghost predicate Strays(s: seq<byte>) {
    exists ws: seq<seq<byte>> :: TextWords(ws) && Join(ws) < s && Continues(s[|Join(ws)|])
  }

  lemma StallsAtOnce(s: seq<byte>)
    requires Terminated(s) && Continues(s[0])
    ensures ScanText(s) == Stalls
  {
  }

  lemma PrefixAndRest(s: seq<byte>, w: seq<byte>)
    requires w <= s
    ensures s == w + s[|w|..]
  {
  }

  // The scan stalls exactly there.
  lemma StallsExactly(s: seq<byte>)
    requires Terminated(s)
    ensures ScanText(s) == Stalls <==> Strays(s)
  {
    if ScanText(s) == Stalls {
      PassedAreWords(s);
    }
    if ws: seq<seq<byte>> :| TextWords(ws) && Join(ws) < s && Continues(s[|Join(ws)|]) {
      PrefixAndRest(s, Join(ws));
      WordsPassed(ws, s[|Join(ws)|..]);
      StallsAtOnce(s[|Join(ws)|..]);
    }
  }

  // The loop of the check, on its own terms: it goes round once more after n rounds.
  ghost predicate GoesOn(s: seq<byte>, n: nat)
    requires Terminated(s)
    decreases n
  {
    && s[0] != 0
    && (n > 0 ==>
        && Length(s) == Head(s[0])
        && (if Length(s) > 0 then AfterCharacter(s); GoesOn(s[Length(s)..], n - 1) else GoesOn(s, n - 1)))
  }

  // It never ends exactly on the strings with a stray continuation byte.
  lemma LoopsForEverExactly(s: seq<byte>)
    requires Terminated(s)
    ensures (forall n: nat :: GoesOn(s, n)) <==> Strays(s)
  {
    StallsExactly(s);
    if ScanText(s) == Stalls {
      forall n: nat
        ensures GoesOn(s, n)
      {
        StallGoesOn(s, n);
      }
    } else {
      EndsAtLast(s);
    }
  }

  lemma {:induction false} StallGoesOn(s: seq<byte>, n: nat)
    requires Terminated(s) && ScanText(s) == Stalls
    ensures GoesOn(s, n)
    decreases n
  {
    if n > 0 {
      if Length(s) > 0 {
        AfterCharacter(s);
        StallGoesOn(s[Length(s)..], n - 1);
      } else {
        StallGoesOn(s, n - 1);
      }
    }
  }

  lemma {:induction false} EndsAtLast(s: seq<byte>)
    requires Terminated(s) && ScanText(s) != Stalls
    ensures !GoesOn(s, |s|)
    decreases |s|
  {
    if s[0] != 0 && Length(s) == Head(s[0]) {
      AfterCharacter(s);
      var rest := s[Length(s)..];
      EndsAtLast(rest);
      if GoesOn(rest, |s| - 1) { GoesOnBefore(rest, |rest|, |s| - 1); }
    }
  }

  lemma {:induction false} GoesOnBefore(s: seq<byte>, m: nat, n: nat)
    requires Terminated(s) && m <= n && GoesOn(s, n)
    ensures GoesOn(s, m)
    decreases m
  {
    if m > 0 {
      if Length(s) > 0 {
        AfterCharacter(s);
        GoesOnBefore(s[Length(s)..], m - 1, n - 1);
      } else {
        GoesOnBefore(s, m - 1, n - 1);
      }
    }
  }

  // One such string.
  lemma StrayContinuation()
    ensures Strays([0x80, 0])
  {
    StallsExactly([0x80, 0]);
  }

  lemma FirstIsWord(s: seq<byte>)
    requires Terminated(s) && s[0] != 0 && Length(s) == Head(s[0]) && Length(s) > 0
    ensures TextWord(s[..Length(s)])
  {
    var w := s[..Length(s)];
    forall i | 0 <= i < |w|
      ensures w[i] != 0 && (i > 0 ==> Continues(w[i]))
    {
      if i > 0 { assert Continues(s[i]); }
    }
  }

  // No byte inside a character looks like a head, and every first byte does.
  lemma {:induction false} HeadsAtBoundaries(ws: seq<seq<byte>>, at: nat, p: nat)
    requires TextWords(ws) && p < |Join(ws)|
    ensures Head(Join(ws)[p]) != 0 <==> at + p in Boundaries(ws, at)
    decreases |ws|
  {
    var w := ws[0];
    assert TextWord(w);
    BoundariesFrom(ws[1..], at + |w|);
    if p < |w| {
      assert Join(ws)[p] == w[p];
      if p > 0 { assert Continues(w[p]); }
    } else {
      HeadsAtBoundaries(ws[1..], at + |w|, p - |w|);
      assert Join(ws)[p] == Join(ws[1..])[p - |w|];
    }
  }

  lemma {:induction false} BoundariesFrom(ws: seq<seq<byte>>, at: nat)
    ensures forall b :: b in Boundaries(ws, at) ==> b >= at
    decreases |ws|
  {
    if ws != [] {
      BoundariesFrom(ws[1..], at + |ws[0]|);
    }
  }

  // ---------------------------------------------------------------------------
  // Strings of encoded code points
  // ---------------------------------------------------------------------------

  predicate CodePoints(us: seq<word>) {
    forall i :: 0 <= i < |us| ==> 1 <= us[i] <= 0x1FFFFF
  }

  function Encodings(us: seq<word>): (ws: seq<seq<byte>>)
    ensures |ws| == |us|
  {
    seq(|us|, i requires 0 <= i < |us| => Encode(us[i]))
  }

  function EncodeAll(us: seq<word>): seq<byte> {
    Join(Encodings(us))
  }

  lemma EncodingsFirst(us: seq<word>)
    requires us != []
    ensures EncodeAll(us) == Encode(us[0]) + EncodeAll(us[1..])
  {
    assert Encodings(us)[1..] == Encodings(us[1..]);
  }

  lemma EncodingsAreWords(us: seq<word>)
    requires CodePoints(us)
    ensures TextWords(Encodings(us))
  {
    forall i | 0 <= i < |us|
      ensures TextWord(Encode(us[i]))
    {
      EncodeIsWord(us[i]);
    }
  }

  // The encoded text of any code points is UTF-8 for the scan, which stands exactly
  // at the boundaries of the characters.
  lemma EncodedTextAccepted(us: seq<word>)
    requires CodePoints(us)
    ensures var mem := EncodeAll(us) + [0];
      Terminated(mem) && ScanText(mem) == Accepts && Cursors(mem, 0) == Boundaries(Encodings(us), 0)
  {
    EncodingsAreWords(us);
    WordsPassed(Encodings(us), [0]);
    WordsFound(Encodings(us), [0]);
    CursorsAreBoundaries(EncodeAll(us) + [0], 0);
  }

  // Nothing inside a character looks like a head.
  lemma EncodedHeads(us: seq<word>, p: nat)
    requires CodePoints(us) && p < |EncodeAll(us)|
    ensures Head(EncodeAll(us)[p]) != 0 <==> p in Boundaries(Encodings(us), 0)
  {
    EncodingsAreWords(us);
    HeadsAtBoundaries(Encodings(us), 0, p);
  }
}
