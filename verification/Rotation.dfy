// In-place rotation by following cycles: every slot hands its element to the
// slot `shift` further on, a cycle ends where it began, and the whole loop ends
// when as many elements have moved as the array holds.
module Rotation {
  import opened Arithmetic

  // The slot whose element a rotation by k brings to p.
  function Source(n: nat, k: int, p: int): (q: nat)
    requires n > 0
    ensures q < n
  {
    (p - k) % n
  }

  // What a rotation by k is: the element at j goes to (j + k) mod n.
  function Rotated<T>(s: seq<T>, k: int): (r: seq<T>)
    requires |s| > 0
    ensures |r| == |s|
    ensures forall p :: 0 <= p < |s| ==> r[p] == s[Source(|s|, k, p)]
  {
    seq(|s|, p requires 0 <= p => s[Source(|s|, k, p)])
  }

  lemma RotatedAt<T>(s: seq<T>, k: int, j: nat)
    requires j < |s|
    ensures Rotated(s, k)[(j + k) % |s|] == s[j]
  {
    SourceOfTarget(|s|, k, j);
  }

  lemma SourceOfTarget(n: nat, k: int, j: nat)
    requires j < n
    ensures Source(n, k, (j + k) % n) == j
  {
    ModAdd(j + k, -k, n);
    ModSmall(j, n);
  }

  lemma SourceTwice(n: nat, k: int, l: int, p: int)
    requires n > 0
    ensures Source(n, k, Source(n, l, p)) == Source(n, k + l, p)
  {
    ModAdd(p - l, -k, n);
  }

  lemma SourceFullTurn(n: nat, k: int, p: nat)
    requires p < n
    ensures Source(n, k + (n - k % n), p) == p
  {
    var d := k / n;
    assert k + (n - k % n) == n * (d + 1);
    DivModUnique(p - n * (d + 1), n, -(d + 1), p);
  }

  // Two rotations add up, so rotating by n - k mod n undoes rotating by k.
  lemma RotatedTwice<T>(s: seq<T>, k: int, l: int)
    requires |s| > 0
    ensures Rotated(Rotated(s, k), l) == Rotated(s, k + l)
  {
    forall p | 0 <= p < |s|
      ensures Rotated(Rotated(s, k), l)[p] == Rotated(s, k + l)[p]
    {
      SourceTwice(|s|, k, l, p);
    }
  }

  lemma RotatedUndone<T>(s: seq<T>, k: int)
    requires |s| > 0
    ensures Rotated(Rotated(s, k), |s| - k % |s|) == s
  {
    var l := |s| - k % |s|;
    RotatedTwice(s, k, l);
    forall p | 0 <= p < |s|
      ensures Rotated(s, k + l)[p] == s[p]
    {
      SourceFullTurn(|s|, k, p);
    }
  }

  // The remainder in C has the sign of the dividend.
  function Remainder(a: int, n: nat): int
    requires n > 0
  {
    if a >= 0 then a % n else -(-a % n)
  }

  // So it is what a division that rounds towards zero leaves over.
  lemma RemainderTruncates(a: int, n: nat) returns (q: int)
    requires n > 0
    ensures a == n * q + Remainder(a, n) && Remainder(a, n) < n && -Remainder(a, n) < n
    ensures a >= 0 ==> Remainder(a, n) >= 0 && q >= 0
    ensures a <= 0 ==> Remainder(a, n) <= 0 && q <= 0
  {
    if a >= 0 {
      var p, _ := Euclid(a, n);
      q := p;
    } else {
      var p, _ := Euclid(-a, n);
      q := -p;
      MulAssoc(n, p, -1);
    }
  }

  // The index the loop computes after curr.
  function NextIndex(n: nat, shift: int, curr: nat): int
    requires n > 0
  {
    Remainder(curr + Remainder(shift, n), n)
  }

  lemma NegatedRemainder(a: int, n: nat)
    requires n > 0
    ensures -a % n == if a % n == 0 then 0 else n - a % n
  {
    var q, r := Euclid(a, n);
    MulAssoc(n, -q, 1);
    if r == 0 {
      DivModUnique(-a, n, -q, 0);
    } else {
      DivModUnique(-a, n, -q - 1, n - r);
    }
  }

  // The very first index is negative exactly for a negative shift that is no multiple
  // of the length; on every other shift each index is the slot `shift` further on.
  lemma NegativeIndexExactly(n: nat, shift: int)
    requires n > 0
    ensures NextIndex(n, shift, 0) < 0 <==> shift < 0 && shift % n != 0
    ensures !(shift < 0 && shift % n != 0) ==>
      Remainder(shift, n) == shift % n && forall curr: nat :: NextIndex(n, shift, curr) == (curr + shift % n) % n
  {
    if shift < 0 {
      NegatedRemainder(shift, n);
      var m := Remainder(shift, n);
      if m < 0 { ModSmall(-m, n); }
    }
  }

  // ---------------------------------------------------------------------------
  // The cycle through i
  // ---------------------------------------------------------------------------

  // The slot reached from i after t hops of length m.
  function Hop(n: nat, m: nat, i: nat, t: nat): (p: nat)
    requires n > 0
    ensures p < n
  {
    (i + t * m) % n
  }

  lemma HopNext(n: nat, m: nat, i: nat, t: nat)
    requires n > 0
    ensures Hop(n, m, i, t + 1) == (Hop(n, m, i, t) + m) % n
  {
    assert i + (t + 1) * m == i + t * m + m;
    ModAdd(i + t * m, m, n);
  }

  // The number of slots on every cycle.
  ghost function CycleLength(n: nat, m: nat): (l: nat)
    requires n > 0
    ensures l > 0 && n == Gcd(n, m) * l
  {
    WholeCycles(n, m);
    n / Gcd(n, m)
  }

  lemma WholeCycles(n: nat, m: nat)
    requires n > 0
    ensures n / Gcd(n, m) > 0 && n == Gcd(n, m) * (n / Gcd(n, m))
  {
    var p, _ := GcdDivides(n, m);
    DivModUnique(n, Gcd(n, m), p, 0);
  }

  // Every hop stays in the same class modulo the gcd.
  lemma HopClass(n: nat, m: nat, i: nat, t: nat)
    requires n > 0
    ensures Hop(n, m, i, t) % Gcd(n, m) == i % Gcd(n, m)
  {
    var g := Gcd(n, m);
    var p, q := GcdDivides(n, m);
    var k, h := Euclid(i + t * m, n);
    ClassAlgebra(n, m, g, p, q, i, t, k, h);
    ModAddMultiple(i, g, t * q - p * k);
  }

  lemma ClassAlgebra(n: int, m: int, g: int, p: int, q: int, i: int, t: int, k: int, h: int)
    requires n == g * p && m == g * q && i + t * m == n * k + h
    ensures h == i + g * (t * q - p * k)
  {
    MulAssoc(t, g, q);
    MulAssoc(g, t, q);
    MulAssoc(g, p, k);
  }

  // If d hops lead back to the start, d is a multiple of the cycle length.
  lemma ReturnAlgebra(n: int, m: int, g: int, l: int, x: int, y: int, d: int, k: int)
    requires g > 0 && n == g * l && g == n * x + m * y && d * m == n * k
    ensures d == l * (d * x + k * y)
  {
    calc {
      g * d;
      (n * x + m * y) * d;
      n * (d * x) + (d * m) * y;
      n * (d * x) + n * (k * y);
      n * (d * x + k * y);
      g * (l * (d * x + k * y));
    }
    MulCancel(g, d, l * (d * x + k * y));
  }

  // The hops of one cycle are all different.
  lemma HopInjective(n: nat, m: nat, i: nat, s: nat, t: nat)
    requires n > 0 && s <= t < s + CycleLength(n, m)
    requires Hop(n, m, i, s) == Hop(n, m, i, t)
    ensures s == t
  {
    var l := CycleLength(n, m);
    var k := ModEqual(i + t * m, i + s * m, n);
    var x, y := GcdBezout(n, m);
    ReturnHops(n, m, i, s, t, k);
    ReturnAlgebra(n, m, Gcd(n, m), l, x, y, t - s, k);
    NoSmallMultiple(t - s, l, (t - s) * x + k * y);
  }

  lemma ReturnHops(n: int, m: int, i: int, s: int, t: int, k: int)
    requires i + t * m == i + s * m + n * k
    ensures (t - s) * m == n * k
  {
  }

  lemma NoSmallMultiple(d: int, l: int, c: int)
    requires 0 <= d < l && d == l * c
    ensures d == 0
  {
    if c >= 1 {
      MulMonotone(l, 1, c);
    } else {
      MulMonotone(l, c, 0);
    }
  }

  // After a full cycle the walk is back at i.
  lemma HopReturns(n: nat, m: nat, i: nat)
    requires i < n
    ensures Hop(n, m, i, CycleLength(n, m)) == i
  {
    var g, l := Gcd(n, m), CycleLength(n, m);
    var _, q := GcdDivides(n, m);
    assert l * m == n * q by {
      MulAssoc(l, g, q);
      MulAssoc(g, l, q);
    }
    DivModUnique(i + l * m, n, q, i);
  }

  // Every slot in i's class lies on i's cycle.
  lemma HopCovers(n: nat, m: nat, i: nat, p: nat) returns (t: nat)
    requires i < n && p < n && p % Gcd(n, m) == i % Gcd(n, m)
    ensures 1 <= t <= CycleLength(n, m) && Hop(n, m, i, t) == p
  {
    var g, l := Gcd(n, m), CycleLength(n, m);
    var e := ModEqual(p, i, g);
    var x, y := GcdBezout(n, m);
    var _, f := GcdDivides(n, m);
    var c, r := Euclid(e * y - 1, l);
    t := r + 1;
    CoverAlgebra(n, m, g, l, f, x, y, e, c, t);
    DivModUnique(i + t * m, n, -(e * x + c * f), p);
  }

  lemma CoverAlgebra(n: int, m: int, g: int, l: int, f: int, x: int, y: int, e: int, c: int, t: int)
    requires g == n * x + m * y && n == g * l && m == g * f && e * y == l * c + t
    ensures t * m == g * e + n * -(e * x + c * f)
  {
    calc {
      t * m;
      (e * y - l * c) * m;
      { MulAssoc(e, y, m); MulAssoc(l, c, m); }
      e * (m * y) - l * (c * m);
      { assert l * (c * (g * f)) == (g * l) * (c * f); }
      e * (g - n * x) - n * (c * f);
      { MulAssoc(e, n, x); MulAssoc(n, e, x); }
      g * e - n * (e * x) - n * (c * f);
      g * e + n * -(e * x + c * f);
    }
  }

  // ---------------------------------------------------------------------------
  // The loop
  // ---------------------------------------------------------------------------

  // The slots written by i full rounds and t hops of round i, in order.
  ghost function WriteOrder(n: nat, m: nat, i: nat, t: nat): (r: seq<nat>)
    requires n > 0
    decreases i, t
  {
    if t > 0 then WriteOrder(n, m, i, t - 1) + [Hop(n, m, i, t)]
    else if i > 0 then WriteOrder(n, m, i - 1, CycleLength(n, m))
    else []
  }

  // The same slots as a set: whole classes below i, and part of i's cycle.
  ghost predicate Written(n: nat, m: nat, i: nat, t: nat, p: nat)
    requires n > 0
  {
    p < n && (p % Gcd(n, m) < i || exists s :: 1 <= s <= t && Hop(n, m, i, s) == p)
  }

  lemma WrittenStep(n: nat, m: nat, i: nat, t: nat, p: nat)
    requires n > 0
    ensures Written(n, m, i, t + 1, p) <==> Written(n, m, i, t, p) || p == Hop(n, m, i, t + 1)
  {
  }

  // The next slot of an unfinished cycle has not been written yet.
  lemma NextUnwritten(n: nat, m: nat, i: nat, t: nat)
    requires n > 0 && i < Gcd(n, m) && t < CycleLength(n, m)
    ensures !Written(n, m, i, t, Hop(n, m, i, t + 1))
  {
    HopClass(n, m, i, t + 1);
    ModSmall(i, Gcd(n, m));
    forall s | 1 <= s <= t && Hop(n, m, i, s) == Hop(n, m, i, t + 1)
      ensures false
    {
      HopInjective(n, m, i, s, t + 1);
    }
  }

  // A finished round has written exactly one more class.
  lemma RoundWritten(n: nat, m: nat, i: nat, p: nat)
    requires n > 0 && i < Gcd(n, m) <= n
    ensures Written(n, m, i, CycleLength(n, m), p) <==> Written(n, m, i + 1, 0, p)
  {
    var g, l := Gcd(n, m), CycleLength(n, m);
    ModSmall(i, g);
    if p < n && p % g == i {
      var t := HopCovers(n, m, i, p);
    }
    if s :| 1 <= s <= l && Hop(n, m, i, s) == p {
      HopClass(n, m, i, s);
    }
  }

  lemma GcdAtMost(n: nat, m: nat)
    requires n > 0
    ensures Gcd(n, m) <= n
  {
    MulMonotone(Gcd(n, m), 1, CycleLength(n, m));
  }

  ghost predicate NoDuplicates<T>(s: seq<T>) {
    forall a, b :: 0 <= a < b < |s| ==> s[a] != s[b]
  }

  ghost predicate Exact(n: nat, m: nat, i: nat, t: nat, order: seq<nat>)
    requires n > 0
  {
    && |order| == CycleLength(n, m) * i + t
    && NoDuplicates(order)
    && forall p: nat :: p in order <==> Written(n, m, i, t, p)
  }

  // The write order has no repetition and holds exactly the written slots.
  lemma {:induction false} WriteOrderExact(n: nat, m: nat, i: nat, t: nat)
    requires n > 0 && t <= CycleLength(n, m)
    requires i < Gcd(n, m) || (i == Gcd(n, m) && t == 0)
    ensures Exact(n, m, i, t, WriteOrder(n, m, i, t))
    decreases i, t
  {
    if t > 0 {
      WriteOrderExact(n, m, i, t - 1);
      ExactStep(n, m, i, t - 1, WriteOrder(n, m, i, t - 1));
    } else if i > 0 {
      WriteOrderExact(n, m, i - 1, CycleLength(n, m));
      ExactRound(n, m, i - 1, WriteOrder(n, m, i, 0));
    } else {
      assert WriteOrder(n, m, 0, 0) == [];
    }
  }

  lemma ExactStep(n: nat, m: nat, i: nat, t: nat, order: seq<nat>)
    requires n > 0 && t < CycleLength(n, m) && i < Gcd(n, m)
    requires Exact(n, m, i, t, order)
    ensures Exact(n, m, i, t + 1, order + [Hop(n, m, i, t + 1)])
  {
    NextUnwritten(n, m, i, t);
    var next := Hop(n, m, i, t + 1);
    assert next !in order;
    forall p: nat ensures p in order + [next] <==> Written(n, m, i, t + 1, p) {
      WrittenStep(n, m, i, t, p);
    }
  }

  lemma ExactRound(n: nat, m: nat, i: nat, order: seq<nat>)
    requires n > 0 && i < Gcd(n, m)
    requires Exact(n, m, i, CycleLength(n, m), order)
    ensures Exact(n, m, i + 1, 0, order)
  {
    GcdAtMost(n, m);
    MulAssoc(CycleLength(n, m), i, 1);
    forall p: nat ensures p in order <==> Written(n, m, i + 1, 0, p) {
      RoundWritten(n, m, i, p);
    }
  }

  // All gcd rounds together write every slot exactly once.
  lemma EverySlotWrittenOnce(n: nat, m: nat)
    requires n > 0
    ensures var order := WriteOrder(n, m, Gcd(n, m), 0);
      |order| == n && NoDuplicates(order) && forall p: nat :: p in order <==> p < n
  {
    var order := WriteOrder(n, m, Gcd(n, m), 0);
    WriteOrderExact(n, m, Gcd(n, m), 0);
    MulAssoc(CycleLength(n, m), Gcd(n, m), 1);
    forall p: nat ensures p in order <==> p < n {
      assert p in order <==> Written(n, m, Gcd(n, m), 0, p);
    }
  }

  ghost function WrittenSlots(n: nat, m: nat, i: nat, t: nat): (w: set<nat>)
    requires n > 0
    ensures forall p :: p in w <==> Written(n, m, i, t, p)
  {
    set p: nat | p < n && Written(n, m, i, t, p)
  }

  lemma NextSlot(n: nat, m: nat, i: nat, t: nat)
    requires n > 0 && i < Gcd(n, m) && t < CycleLength(n, m)
    ensures var next := (Hop(n, m, i, t) + m) % n;
      && next == Hop(n, m, i, t + 1) && next !in WrittenSlots(n, m, i, t)
      && WrittenSlots(n, m, i, t + 1) == WrittenSlots(n, m, i, t) + {next}
  {
    HopNext(n, m, i, t);
    NextUnwritten(n, m, i, t);
    SlotsStep(n, m, i, t);
  }

  lemma SlotsStep(n: nat, m: nat, i: nat, t: nat)
    requires n > 0
    ensures WrittenSlots(n, m, i, t + 1) == WrittenSlots(n, m, i, t) + {Hop(n, m, i, t + 1)}
  {
    var w, next := WrittenSlots(n, m, i, t), Hop(n, m, i, t + 1);
    forall p: nat
      ensures p in WrittenSlots(n, m, i, t + 1) <==> p in w + {next}
    {
      WrittenStep(n, m, i, t, p);
    }
  }

  // What the array holds when exactly the slots w have their new element.
  ghost predicate Moved<T>(was: seq<T>, now: seq<T>, target: seq<T>, w: set<nat>)
    requires |was| == |target|
  {
    |now| == |was| && forall p :: 0 <= p < |was| ==> now[p] == if p in w then target[p] else was[p]
  }

  // One hop: the carried element goes to the next slot, whose own element, still
  // the original one, is carried on.
  lemma MovedStep<T>(was: seq<T>, now: seq<T>, m: nat, w: set<nat>, curr: nat, next: nat)
    requires curr < |was| && next == (curr + m) % |was| && next !in w
    requires Moved(was, now, Rotated(was, m), w)
    ensures now[next] == was[next] && Moved(was, now[next := was[curr]], Rotated(was, m), w + {next})
  {
    RotatedAt(was, m, curr);
  }

  // A round starts from an element that is still in its original place.
  lemma RoundStart<T>(was: seq<T>, now: seq<T>, m: nat, i: nat)
    requires |was| > 0 && i < Gcd(|was|, m)
    requires Moved(was, now, Rotated(was, m), WrittenSlots(|was|, m, i, 0))
    ensures i < |was| && now[i] == was[i] && Hop(|was|, m, i, 0) == i
  {
    GcdAtMost(|was|, m);
    ModSmall(i, Gcd(|was|, m));
    ModSmall(i, |was|);
    assert !Written(|was|, m, i, 0, i);
  }

  lemma SlotsRound(n: nat, m: nat, i: nat)
    requires n > 0 && i < Gcd(n, m)
    ensures WrittenSlots(n, m, i, CycleLength(n, m)) == WrittenSlots(n, m, i + 1, 0)
  {
    GcdAtMost(n, m);
    forall p: nat
      ensures p in WrittenSlots(n, m, i, CycleLength(n, m)) <==> p in WrittenSlots(n, m, i + 1, 0)
    {
      RoundWritten(n, m, i, p);
    }
  }

  // Before the first round nothing is written, after the last one everything.
  lemma SlotsAtEnds(n: nat, m: nat)
    requires n > 0
    ensures WrittenSlots(n, m, 0, 0) == {}
    ensures forall p: nat :: p in WrittenSlots(n, m, Gcd(n, m), 0) <==> p < n
  {
    forall p: nat
      ensures p in WrittenSlots(n, m, Gcd(n, m), 0) <==> p < n
    {
      var _, r := Euclid(p, Gcd(n, m));
    }
  }

  // The walk is back at i exactly at the end of the cycle.
  lemma BackAtStart(n: nat, m: nat, i: nat, t: nat)
    requires i < n && 1 <= t <= CycleLength(n, m)
    ensures Hop(n, m, i, t) == i <==> t == CycleLength(n, m)
  {
    HopReturns(n, m, i);
    ModSmall(i, n);
    if Hop(n, m, i, t) == i && t < CycleLength(n, m) {
      HopInjective(n, m, i, 0, t);
    }
  }

  // Fewer than n elements have moved exactly while fewer than gcd rounds are done.
  lemma CountTellsRounds(n: nat, m: nat, i: nat)
    requires n > 0
    ensures CycleLength(n, m) * i < n <==> i < Gcd(n, m)
  {
    CountAlgebra(n, Gcd(n, m), CycleLength(n, m), i);
  }

  lemma CountAlgebra(n: int, g: int, l: int, i: int)
    requires l > 0 && n == g * l
    ensures l * i < n <==> i < g
  {
    MulAssoc(g, l, 1);
    MulNext(l, i);
    if i < g {
      MulMonotone(l, i + 1, g);
    } else {
      MulMonotone(l, g, i);
    }
  }

  lemma SourceByRemainder(n: nat, k: int, p: int)
    requires n > 0
    ensures Source(n, k % n, p) == Source(n, k, p)
  {
    var q, r := Euclid(k, n);
    assert p - r == p - k + n * q;
    ModAddMultiple(p - k, n, q);
  }

  lemma RotatedByRemainder<T>(s: seq<T>, k: int)
    requires |s| > 0
    ensures Rotated(s, k % |s|) == Rotated(s, k)
  {
    forall p | 0 <= p < |s|
      ensures Rotated(s, k % |s|)[p] == Rotated(s, k)[p]
    {
      SourceByRemainder(|s|, k, p);
    }
  }

  // `trace` lists the slots in the order they are written, `rounds` counts the
  // cycles walked.
  method Rotate<T>(data: array<T>, shift: int) returns (rounds: nat, trace: seq<nat>)
    requires data.Length > 0 && (shift >= 0 || shift % data.Length == 0)
    modifies data
    ensures data[..] == Rotated(old(data[..]), shift)
    ensures rounds == Gcd(data.Length, shift % data.Length)
    ensures trace == WriteOrder(data.Length, shift % data.Length, rounds, 0)
  {
    NegativeIndexExactly(data.Length, shift);
    RotatedByRemainder(data[..], shift);
    rounds, trace := RotateBy(data, Remainder(shift, data.Length));
  }

  // The loops; nothing in them is negative, so C's remainder is the usual one.
  method RotateBy<T>(data: array<T>, mod: nat) returns (rounds: nat, trace: seq<nat>)
    requires mod < data.Length
    modifies data
    ensures data[..] == Rotated(old(data[..]), mod)
    ensures rounds == Gcd(data.Length, mod)
    ensures trace == WriteOrder(data.Length, mod, rounds, 0)
  {
    var len := data.Length;
    ModSmall(mod, len);
    ghost var g, l := Gcd(len, mod), CycleLength(len, mod);
    ghost var was, target := data[..], Rotated(data[..], mod);
    GcdAtMost(len, mod);
    SlotsAtEnds(len, mod);
    var count := 0;
    trace := [];
    var i := 0;
    while count < len
      invariant 0 <= i <= g && count == l * i
      invariant trace == WriteOrder(len, mod, i, 0)
      invariant Moved(was, data[..], target, WrittenSlots(len, mod, i, 0))
      decreases len - count
    {
      CountTellsRounds(len, mod, i);
      RoundStart(was, data[..], mod, i);
      var prev := data[i];
      var curr := i;
      ghost var t := 0;
      while true
        invariant 0 <= t < l && count == l * i + t
        invariant curr == Hop(len, mod, i, t) && prev == was[curr]
        invariant trace == WriteOrder(len, mod, i, t)
        invariant Moved(was, data[..], target, WrittenSlots(len, mod, i, t))
        decreases l - t
      {
        var next := (curr + mod) % len;
        NextSlot(len, mod, i, t);
        MovedStep(was, data[..], mod, WrittenSlots(len, mod, i, t), curr, next);
        assert data[..][next] == was[next];
        var tmp := data[next];
        data[next] := prev;
        prev := tmp;
        curr := next;
        count := count + 1;
        trace := trace + [curr];
        t := t + 1;
        BackAtStart(len, mod, i, t);
        if i == curr {
          break;
        }
      }
      SlotsRound(len, mod, i);
      MulNext(l, i);
      i := i + 1;
    }
    CountTellsRounds(len, mod, i);
    rounds := i;
    assert data[..] == target;
  }
}
