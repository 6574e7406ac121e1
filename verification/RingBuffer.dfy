// The ring of the last messages: a cursor that only grows, taken modulo the number
// of slots, and a rendering that starts at the oldest message.
module RingBuffer {
  import opened Arithmetic

  datatype Slot<T> = Free | Holding(msg: T)

  datatype Ring<T> = Ring(cursor: nat, items: seq<Slot<T>>)

  datatype Op<T> = Add(msg: T) | Clear

  // One rendered entry: the slot's number and the message.
  datatype Line<T> = Line(num: nat, slot: Slot<T>)

  // ---------------------------------------------------------------------------
  // The operations
  // ---------------------------------------------------------------------------

  function AddOp<T>(r: Ring<T>, msg: T): Ring<T>
    requires |r.items| > 0
  {
    Ring(r.cursor + 1, r.items[r.cursor % |r.items| := Holding(msg)])
  }

  function ClearOp<T>(r: Ring<T>): Ring<T> {
    Ring(0, seq(|r.items|, _ => Free))
  }

  function Apply<T>(r: Ring<T>, op: Op<T>): (q: Ring<T>)
    requires |r.items| > 0
    ensures |q.items| == |r.items|
  {
    match op
    case Add(msg) => AddOp(r, msg)
    case Clear => ClearOp(r)
  }

  function HeadPos<T>(r: Ring<T>): (h: nat)
    requires |r.items| > 0
    ensures h < |r.items|
  {
    if r.cursor < |r.items| then 0 else r.cursor % |r.items|
  }

  // The entries rendered from the k-th step on: step k looks at slot
  // (head + k) mod N, and stops at a slot not yet written.
  function Visited<T>(r: Ring<T>, k: nat): seq<Line<T>>
    requires |r.items| > 0 && k <= |r.items|
    decreases |r.items| - k
  {
    var index := (HeadPos(r) + k) % |r.items|;
    if k == |r.items| || index >= r.cursor then []
    else [Line(index, r.items[index])] + Visited(r, k + 1)
  }

  // ---------------------------------------------------------------------------
  // The ring in memory
  // ---------------------------------------------------------------------------

  class MsgEntity<T> {
    var cursor: nat
    var items: array<Slot<T>>

    ghost function State(): Ring<T>
      reads this, items
    {
      Ring(cursor, items[..])
    }

    // The source has 3 slots.
    constructor (slots: nat)
      requires slots > 0
      ensures fresh(items) && State() == Ring(0, seq(slots, _ => Free))
    {
      cursor := 0;
      items := new Slot<T>[slots](_ => Free);
    }

    method Add(msg: T)
      requires items.Length > 0
      modifies `cursor, items
      ensures State() == AddOp(old(State()), msg)
    {
      var pos := cursor;
      while pos >= items.Length
        invariant 0 <= pos && pos % items.Length == cursor % items.Length
        modifies {}
        decreases pos
      {
        ModAdd(pos, 0, items.Length);
        RemainderSmaller(pos, items.Length);
        pos := pos % items.Length;
      }
      ModSmall(pos, items.Length);
      items[pos] := Holding(msg);
      cursor := cursor + 1;
    }

    method Clear()
      modifies `cursor, items
      ensures State() == ClearOp(old(State()))
    {
      var k := 0;
      while k < items.Length
        invariant 0 <= k <= items.Length && forall j :: 0 <= j < k ==> items[j] == Free
        invariant cursor == old(cursor)
      {
        items[k] := Free;
        k := k + 1;
      }
      cursor := 0;
    }

    method Render() returns (lines: seq<Line<T>>)
      requires items.Length > 0
      ensures lines == Visited(State(), 0)
    {
      var head := cursor;
      if head < items.Length {
        head := 0;
      } else {
        head := head % items.Length;
      }
      lines := [];
      var index := head;
      ghost var k := 0;
      ModSmall(head, items.Length);
      while true
        invariant 0 <= k < items.Length && index == (head + k) % items.Length
        invariant lines + Visited(State(), k) == Visited(State(), 0)
        decreases items.Length - k
      {
        if index >= cursor {
          return;
        }
        lines := lines + [Line(index, items[index])];
        NextIndex(head, k, items.Length);
        index := (index + 1) % items.Length;
        k := k + 1;
        if index == head {
          break;
        }
      }
    }
  }

  lemma RemainderSmaller(a: nat, m: nat)
    requires 0 < m <= a
    ensures a % m < a
  {
  }

  // The walk is back at its head after exactly m steps.
  lemma NextIndex(head: nat, k: nat, m: nat)
    requires head < m && k < m
    ensures ((head + k) % m + 1) % m == (head + (k + 1)) % m
    ensures (head + (k + 1)) % m == head <==> k + 1 == m
  {
    ModAdd(head + k, 1, m);
    if head + k + 1 < m {
      ModSmall(head + k + 1, m);
    } else {
      DivModUnique(head + k + 1, m, 1, head + k + 1 - m);
    }
  }

  // ---------------------------------------------------------------------------
  // Every history
  // ---------------------------------------------------------------------------

  // What was added since the last clear, oldest first.
  function Remembered<T>(ops: seq<Op<T>>): seq<T> {
    if ops == [] then []
    else
      match ops[|ops| - 1]
      case Add(msg) => Remembered(ops[..|ops| - 1]) + [msg]
      case Clear => []
  }

  function After<T>(slots: nat, ops: seq<Op<T>>): (r: Ring<T>)
    requires slots > 0
    ensures |r.items| == slots
  {
    if ops == [] then Ring(0, seq(slots, _ => Free)) else Apply(After(slots, ops[..|ops| - 1]), ops[|ops| - 1])
  }

  // Message i is in slot i mod N as long as it is among the last N, and a slot that no
  // message has got to is free.
  ghost predicate Holds<T>(r: Ring<T>, msgs: seq<T>) {
    && |r.items| > 0 && r.cursor == |msgs|
    && (forall i :: 0 <= i < |msgs| && i + |r.items| >= |msgs| ==> r.items[i % |r.items|] == Holding(msgs[i]))
    && (forall j :: |msgs| <= j < |r.items| ==> r.items[j] == Free)
  }

  // Two numbers less than m apart have different remainders.
  lemma CloseNumbersDiffer(a: nat, b: nat, m: nat)
    requires a < b < a + m
    ensures a % m != b % m
  {
    if a % m == b % m {
      var k := ModEqual(b, a, m);
      if k >= 1 { MulMonotone(m, 1, k); } else { MulMonotone(m, k, 0); }
    }
  }

  lemma AddKeepsHolds<T>(r: Ring<T>, msgs: seq<T>, msg: T)
    requires Holds(r, msgs)
    ensures Holds(AddOp(r, msg), msgs + [msg])
  {
    var n := |r.items|;
    forall i | 0 <= i < |msgs| && i + n >= |msgs| + 1
      ensures i % n != |msgs| % n
    {
      CloseNumbersDiffer(i, |msgs|, n);
    }
    if |msgs| < n { ModSmall(|msgs|, n); }
  }

  lemma {:induction false} AfterHolds<T>(slots: nat, ops: seq<Op<T>>)
    requires slots > 0
    ensures Holds(After(slots, ops), Remembered(ops))
  {
    if ops != [] {
      var before, last := ops[..|ops| - 1], ops[|ops| - 1];
      AfterHolds(slots, before);
      if last.Add? {
        AddKeepsHolds(After(slots, before), Remembered(before), last.msg);
      }
    }
  }

  // How many messages are rendered.
  function Shown(count: nat, slots: nat): nat {
    if count < slots then count else slots
  }

  // The slot looked at in step k is that of the k-th of the last messages.
  lemma SlotNumber(count: nat, n: nat, k: nat)
    requires n > 0 && k < Shown(count, n)
    ensures var i := count - Shown(count, n) + k;
      ((if count < n then 0 else count % n) + k) % n == i % n && 0 <= i % n < n && i % n < count
  {
    if count < n {
      ModSmall(k, n);
    } else {
      ModAdd(count, k, n);
      ModAddMultiple(count - n + k, n, 1);
      var _, slot := Euclid(count - n + k, n);
    }
  }

  // The k-th entry rendered is the k-th of the last messages.
  lemma VisitedSlot<T>(r: Ring<T>, msgs: seq<T>, k: nat)
    requires Holds(r, msgs) && k < Shown(|msgs|, |r.items|)
    ensures var n := |r.items|; var i := |msgs| - Shown(|msgs|, n) + k;
      && (HeadPos(r) + k) % n == i % n
      && 0 <= i % n < n && i % n < r.cursor && r.items[i % n] == Holding(msgs[i])
  {
    SlotNumber(|msgs|, |r.items|, k);
  }

  lemma {:induction false} VisitedFrom<T>(r: Ring<T>, msgs: seq<T>, k: nat)
    requires Holds(r, msgs) && k <= Shown(|msgs|, |r.items|)
    ensures var n := |r.items|; var shown := Shown(|msgs|, n); var lines := Visited(r, k);
      && |lines| == shown - k
      && forall j :: 0 <= j < |lines| ==>
           lines[j] == Line((|msgs| - shown + k + j) % n, Holding(msgs[|msgs| - shown + k + j]))
    decreases |r.items| - k
  {
    var n := |r.items|;
    if k < Shown(|msgs|, n) {
      VisitedSlot(r, msgs, k);
      VisitedFrom(r, msgs, k + 1);
    } else if k < n {
      ModSmall(k, n);
    }
  }

  // After any history of adds and clears the rendering shows exactly the last
  // min(count, N) messages since the last clear, oldest first, each once.
  lemma RenderShowsLast<T>(slots: nat, ops: seq<Op<T>>)
    requires slots > 0
    ensures var msgs := Remembered(ops); var shown := Shown(|msgs|, slots); var lines := Visited(After(slots, ops), 0);
      && |lines| == shown
      && forall j :: 0 <= j < shown ==>
           lines[j] == Line((|msgs| - shown + j) % slots, Holding(msgs[|msgs| - shown + j]))
  {
    AfterHolds(slots, ops);
    VisitedFrom(After(slots, ops), Remembered(ops), 0);
  }
}
