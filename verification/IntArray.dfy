// The growable array: insertion and removal on a block of slots that doubles when
// it is full and shrinks when it is at most a quarter used. `size` is the number of
// slots, `capacity` how many are used.
module IntArray {

  // ---------------------------------------------------------------------------
  // What the operations do to the contents and the slots
  // ---------------------------------------------------------------------------

  // `copied` counts the elements moved from one block of slots to another.
  datatype Model = Model(contents: seq<int>, slots: nat, copied: nat)

  datatype Op = Add(index: int, val: int) | Remove(val: int)

  function Inserted(s: seq<int>, index: nat, val: int): (r: seq<int>)
    requires index <= |s|
    ensures |r| == |s| + 1 && r[index] == val
    ensures forall k :: 0 <= k < index ==> r[k] == s[k]
    ensures forall k :: index <= k < |s| ==> r[k + 1] == s[k]
  {
    s[..index] + [val] + s[index..]
  }

  lemma InsertedIn(s: seq<int>, t: seq<int>, index: nat, val: int)
    requires index <= |s| < |t| && t[..index] == s[..index] && t[index] == val && t[index + 1..|s| + 1] == s[index..]
    ensures t[..|s| + 1] == Inserted(s, index, val)
  {
    assert t[..|s| + 1] == t[..index] + [t[index]] + t[index + 1..|s| + 1];
  }

  // The last place of a value; -1 if it is nowhere.
  function LastPlace(s: seq<int>, val: int): (r: int)
    ensures -1 <= r < |s|
    ensures r >= 0 ==> s[r] == val
    ensures forall k :: r < k < |s| ==> s[k] != val
  {
    if s == [] then -1
    else if s[|s| - 1] == val then |s| - 1
    else LastPlace(s[..|s| - 1], val)
  }

  function Grown(m: Model): Model {
    if |m.contents| + 1 <= m.slots then m else m.(slots := 2 * m.slots, copied := m.copied + |m.contents|)
  }

  function Reduced(m: Model): Model {
    if 4 * |m.contents| > m.slots then m
    else m.(slots := 2 * |m.contents|, copied := m.copied + |m.contents|)
  }

  predicate AddAccepted(m: Model, index: int) {
    0 <= index <= |m.contents|
  }

  function AddOp(m: Model, index: int, val: int): Model {
    if !AddAccepted(m, index) then m
    else Grown(m).(contents := Inserted(m.contents, index, val))
  }

  function RemoveOp(m: Model, val: int): Model {
    var k := LastPlace(m.contents, val);
    if k < 0 then m else Reduced(m.(contents := m.contents[..k] + m.contents[k + 1..]))
  }

  function Apply(m: Model, op: Op): Model {
    match op
    case Add(index, val) => AddOp(m, index, val)
    case Remove(val) => RemoveOp(m, val)
  }

  // ---------------------------------------------------------------------------
  // Every run
  // ---------------------------------------------------------------------------

  // Adding to an array without slots, which emptying leaves, has no meaning.
  predicate Allowed(m: Model, op: Op) {
    op.Add? ==> m.slots > 0 || !AddAccepted(m, op.index)
  }

  predicate AllAllowed(m: Model, ops: seq<Op>)
    decreases |ops|
  {
    ops == [] || (Allowed(m, ops[0]) && AllAllowed(Apply(m, ops[0]), ops[1..]))
  }

  function Run(m: Model, ops: seq<Op>): Model
    decreases |ops|
  {
    if ops == [] then m else Run(Apply(m, ops[0]), ops[1..])
  }

  // The adds that were accepted and the removes that found something.
  function Adds(m: Model, ops: seq<Op>): nat
    decreases |ops|
  {
    if ops == [] then 0
    else (if ops[0].Add? && AddAccepted(m, ops[0].index) then 1 else 0) + Adds(Apply(m, ops[0]), ops[1..])
  }

  function Removes(m: Model, ops: seq<Op>): nat
    decreases |ops|
  {
    if ops == [] then 0
    else (if ops[0].Remove? && ops[0].val in m.contents then 1 else 0) + Removes(Apply(m, ops[0]), ops[1..])
  }

  // Twice the work saved up for the next resize.
  function Potential(m: Model): nat {
    if 2 * |m.contents| >= m.slots then 4 * |m.contents| - 2 * m.slots else m.slots - 2 * |m.contents|
  }

  lemma LastPlaceFinds(s: seq<int>, val: int)
    ensures LastPlace(s, val) >= 0 <==> val in s
  {
  }

  lemma AddCost(m: Model, index: int, val: int)
    requires |m.contents| <= m.slots && Allowed(m, Add(index, val)) && AddAccepted(m, index)
    ensures var n := AddOp(m, index, val);
      |n.contents| <= n.slots && 2 * n.copied + Potential(n) <= 2 * m.copied + Potential(m) + 4
  {
  }

  lemma RemoveCost(m: Model, val: int)
    requires |m.contents| <= m.slots && val in m.contents
    ensures var n := RemoveOp(m, val);
      |n.contents| <= n.slots && 2 * n.copied + Potential(n) <= 2 * m.copied + Potential(m) + 2
  {
    LastPlaceFinds(m.contents, val);
  }

  lemma {:induction false} RunCost(m: Model, ops: seq<Op>)
    requires |m.contents| <= m.slots && AllAllowed(m, ops)
    ensures var n := Run(m, ops);
      && |n.contents| <= n.slots
      && 2 * n.copied + Potential(n) <= 2 * m.copied + Potential(m) + 4 * Adds(m, ops) + 2 * Removes(m, ops)
    decreases |ops|
  {
    if ops != [] {
      var op, rest := ops[0], ops[1..];
      match op {
        case Add(index, val) => if AddAccepted(m, index) { AddCost(m, index, val); }
        case Remove(val) => LastPlaceFinds(m.contents, val); if val in m.contents { RemoveCost(m, val); }
      }
      RunCost(Apply(m, op), rest);
    }
  }

  // The slots after an add and a remove: twice as many exactly if all were used,
  // twice the elements left exactly if these use at most a quarter. Only then are
  // elements copied, every one once.
  lemma SlotsExactly(m: Model, index: int, val: int)
    ensures var a, k := AddOp(m, index, val), |m.contents|;
      if 0 <= index <= k && k >= m.slots then a.slots == 2 * m.slots && a.copied == m.copied + k
      else a.slots == m.slots && a.copied == m.copied
    ensures var r, k := RemoveOp(m, val), |m.contents| - 1;
      if val in m.contents && k <= m.slots / 4 then r.slots == 2 * k && r.copied == m.copied + k
      else r.slots == m.slots && r.copied == m.copied
  {
    LastPlaceFinds(m.contents, val);
  }

  lemma {:induction false} OpsCounted(m: Model, ops: seq<Op>)
    ensures Adds(m, ops) + Removes(m, ops) <= |ops|
    decreases |ops|
  {
    if ops != [] {
      OpsCounted(Apply(m, ops[0]), ops[1..]);
    }
  }

  // From n empty slots, A adds and R removes copy at most 2A + R + n/2 elements,
  // and never use more slots than there are.
  lemma CopiesBounded(n: nat, ops: seq<Op>)
    requires AllAllowed(Model([], n, 0), ops)
    ensures var m := Model([], n, 0);
      && Run(m, ops).copied <= 2 * Adds(m, ops) + Removes(m, ops) + n / 2
      && |Run(m, ops).contents| <= Run(m, ops).slots
  {
    RunCost(Model([], n, 0), ops);
  }

  // An accepted add to an array without slots has none for its element.
  lemma AddFitsExactly(m: Model, index: int, val: int)
    requires |m.contents| <= m.slots && AddAccepted(m, index)
    ensures |AddOp(m, index, val).contents| <= AddOp(m, index, val).slots <==> Allowed(m, Add(index, val))
  {
  }

  // Nothing is put in front, which is all an empty array accepts.
  predicate NoneInFront(ops: seq<Op>) {
    forall k :: 0 <= k < |ops| ==> !(ops[k].Add? && ops[k].index == 0)
  }

  // Nothing is put in front after the remove that empties the array.
  predicate NoneAfterEmptied(m: Model, ops: seq<Op>)
    decreases |ops|
  {
    ops == [] || (var n := Apply(m, ops[0]);
      if m.contents != [] && n.contents == [] then NoneInFront(ops[1..]) else NoneAfterEmptied(n, ops[1..]))
  }

  lemma {:induction false} EmptiedAllowed(m: Model, ops: seq<Op>)
    requires m.slots == 0 && m.contents == []
    ensures AllAllowed(m, ops) <==> NoneInFront(ops)
    decreases |ops|
  {
    if ops != [] {
      var op, rest := ops[0], ops[1..];
      assert NoneInFront(ops) <==> !(op.Add? && op.index == 0) && NoneInFront(rest) by {
        assert forall k :: 0 <= k < |rest| ==> rest[k] == ops[k + 1];
      }
      if Allowed(m, op) {
        assert Apply(m, op) == m;
        EmptiedAllowed(m, rest);
      }
    }
  }

  // A run keeps its slots exactly if nothing is put in front of an emptied array.
  lemma {:induction false} AllowedExactly(m: Model, ops: seq<Op>)
    requires m.slots > 0
    ensures AllAllowed(m, ops) <==> NoneAfterEmptied(m, ops)
    decreases |ops|
  {
    if ops != [] {
      var n, rest := Apply(m, ops[0]), ops[1..];
      if m.contents != [] && n.contents == [] {
        EmptiedAllowed(n, rest);
      } else {
        AllowedExactly(n, rest);
      }
    }
  }

  // One slot, filled, emptied and filled again.
  lemma AddAfterEmptied(a: int, b: int)
    ensures !AllAllowed(Model([], 1, 0), [Add(0, a), Remove(a), Add(0, b)])
  {
    var m := Model([], 1, 0);
    var ops := [Add(0, a), Remove(a), Add(0, b)];
    var n := Apply(m, ops[0]);
    assert n.contents == [a] && LastPlace([a], a) == 0;
    assert Apply(n, ops[1]).contents == [];
    assert ops[1..][0] == ops[1] && ops[1..][1..] == [Add(0, b)];
    assert [Add(0, b)][0].index == 0;
    AllowedExactly(m, ops);
  }

  predicate NeverEmptied(m: Model, ops: seq<Op>)
    decreases |ops|
  {
    ops == [] || ((m.contents != [] ==> Apply(m, ops[0]).contents != []) && NeverEmptied(Apply(m, ops[0]), ops[1..]))
  }

  // So it does if it never empties the array.
  lemma NeverEmptiedAllowed(m: Model, ops: seq<Op>)
    requires m.slots > 0 && NeverEmptied(m, ops)
    ensures AllAllowed(m, ops)
  {
    AllowedExactly(m, ops);
    NeverEmptiedNoneAfter(m, ops);
  }

  lemma {:induction false} NeverEmptiedNoneAfter(m: Model, ops: seq<Op>)
    requires NeverEmptied(m, ops)
    ensures NoneAfterEmptied(m, ops)
    decreases |ops|
  {
    if ops != [] {
      NeverEmptiedNoneAfter(Apply(m, ops[0]), ops[1..]);
    }
  }

  // Removing a value takes its last occurrence out and nothing else; a value that
  // is not there changes nothing.
  lemma RemoveTakesLast(m: Model, left: seq<int>, val: int, right: seq<int>)
    requires m.contents == left + [val] + right && val !in right
    ensures RemoveOp(m, val).contents == left + right
  {
    var s := m.contents;
    assert s[|left|] == val;
    assert forall k :: |left| < k < |s| ==> s[k] == right[k - |left| - 1];
    assert LastPlace(s, val) == |left|;
    assert s[..|left|] == left && s[|left| + 1..] == right;
  }

  lemma RemoveOfAbsent(m: Model, val: int)
    requires val !in m.contents
    ensures RemoveOp(m, val) == m
  {
    LastPlaceFinds(m.contents, val);
  }

  // Inserting at an index and removing what was inserted, where no later element
  // equals it, gives the contents back.
  lemma AddThenRemove(s: seq<int>, index: nat, val: int)
    requires index <= |s| && val !in s[index..]
    ensures var t := Inserted(s, index, val);
      LastPlace(t, val) == index && t[..index] + t[index + 1..] == s
  {
    var t := Inserted(s, index, val);
    assert t[index] == val;
    assert forall k :: index < k < |t| ==> t[k] == s[index..][k - index - 1];
  }

  // ---------------------------------------------------------------------------
  // The array in memory
  // ---------------------------------------------------------------------------

  class Container {
    var arr: array<int>
    var size: nat
    var capacity: nat
    ghost var copied: nat

    ghost predicate Valid()
      reads this, arr
    {
      arr.Length == size && capacity <= size
    }

    ghost function State(): Model
      requires Valid()
      reads this, arr
    {
      Model(arr[..capacity], size, copied)
    }

    constructor (size: int)
      ensures Valid() && fresh(arr)
      ensures State() == Model([], if size > 0 then size else 0, 0)
    {
      this.arr := new int[if size > 0 then size else 0];
      this.size := if size > 0 then size else 0;
      capacity := 0;
      copied := 0;
    }

    // A new block of slots with the elements in it.
    method Move(slots: nat)
      requires Valid() && capacity <= slots
      modifies `arr, `size, `copied
      ensures Valid() && fresh(arr) && size == slots
      ensures arr[..capacity] == old(arr[..capacity]) && copied == old(copied) + capacity
    {
      var newSpace := new int[slots];
      var i := 0;
      while i < capacity
        invariant 0 <= i <= capacity && newSpace[..i] == arr[..i]
        modifies newSpace
      {
        newSpace[i] := arr[i];
        i := i + 1;
      }
      arr, size := newSpace, slots;
      copied := copied + capacity;
    }

    method Grow()
      requires Valid()
      modifies `arr, `size, `copied
      ensures Valid() && fresh(arr)
      ensures State() == old(State()).(slots := 2 * old(size), copied := old(copied) + capacity)
    {
      Move(2 * size);
    }

    method Insert(index: int, val: int) returns (r: int)
      requires Valid() && Allowed(State(), Add(index, val))
      modifies this, arr
      ensures Valid() && (arr == old(arr) || fresh(arr))
      ensures State() == AddOp(old(State()), index, val)
      ensures r == if 0 <= index <= old(capacity) then 0 else -1
      ensures size == if r == 0 && old(capacity) == old(size) then 2 * old(size) else old(size)
    {
      if index < 0 || index > capacity {
        return -1;
      }
      if capacity + 1 > size {
        Grow();
      }
      assert State() == Grown(old(State()));
      PutAt(index, val);
      return 0;
    }

    method PutAt(index: nat, val: int)
      requires Valid() && index <= capacity < size
      modifies `capacity, arr
      ensures Valid()
      ensures State() == old(State()).(contents := Inserted(old(State()).contents, index, val))
    {
      ghost var s := arr[..capacity];
      OpenGap(index);
      assert arr[index + 1..capacity + 1] == s[index..];
      arr[index] := val;
      InsertedIn(s, arr[..], index, val);
      capacity := capacity + 1;
    }

    // Every element from index on moves one slot up.
    method OpenGap(index: nat)
      requires Valid() && index <= capacity < size
      modifies arr
      ensures arr[..index] == old(arr[..index])
      ensures arr[index + 1..capacity + 1] == old(arr[index..capacity])
    {
      ghost var s := arr[..capacity];
      var i := capacity;
      while i > index
        invariant index <= i <= capacity
        invariant forall k :: 0 <= k < i ==> arr[k] == s[k]
        invariant forall k :: i < k <= capacity ==> arr[k] == s[k - 1]
      {
        arr[i] := arr[i - 1];
        i := i - 1;
      }
      assert s[index..] == old(arr[index..capacity]);
      assert arr[index + 1..capacity + 1] == s[index..];
    }

    method Find(val: int) returns (index: int)
      requires Valid()
      ensures index == LastPlace(State().contents, val)
    {
      index := -1;
      var i := 0;
      while i < capacity
        invariant 0 <= i <= capacity
        invariant index == LastPlace(arr[..i], val)
      {
        assert arr[..i + 1][..i] == arr[..i];
        if arr[i] == val {
          index := i;
        }
        i := i + 1;
      }
    }

    method Reduce() returns (r: int)
      requires Valid()
      modifies `arr, `size, `copied
      ensures Valid() && (arr == old(arr) || fresh(arr))
      ensures State() == Reduced(old(State()))
      ensures r == if 4 * capacity > old(size) then -1 else 0
      ensures size == if r == 0 then 2 * capacity else old(size)
    {
      if 4 * capacity > size {
        return -1;
      }
      Move(2 * capacity);
      return 0;
    }

    method Delete(val: int) returns (r: int)
      requires Valid()
      modifies this, arr
      ensures Valid() && (arr == old(arr) || fresh(arr))
      ensures State() == RemoveOp(old(State()), val)
      ensures r == if val in old(State()).contents then 0 else -1
      ensures capacity == if r == 0 then old(capacity) - 1 else old(capacity)
      ensures size == if r == 0 && capacity <= old(size) / 4 then 2 * capacity else old(size)
    {
      var index := Find(val);
      LastPlaceFinds(State().contents, val);
      if index < 0 {
        return -1;
      }
      CloseGap(index);
      capacity := capacity - 1;
      assert State() == Model(old(State()).contents[..index] + old(State()).contents[index + 1..], size, copied);
      var _ := Reduce();
      return 0;
    }

    // Every element behind index moves one slot down.
    method CloseGap(index: nat)
      requires Valid() && index < capacity
      modifies arr
      ensures arr[..capacity - 1] == old(arr[..capacity])[..index] + old(arr[..capacity])[index + 1..]
    {
      ghost var s := arr[..capacity];
      var i := index;
      while i < capacity - 1
        invariant index <= i <= capacity - 1
        invariant arr[..index] == s[..index]
        invariant forall j :: index <= j < i ==> arr[j] == s[j + 1]
        invariant forall j :: i < j < capacity ==> arr[j] == s[j]
      {
        arr[i] := arr[i + 1];
        i := i + 1;
      }
      assert arr[index..capacity - 1] == s[index + 1..];
      assert arr[..capacity - 1] == arr[..index] + arr[index..capacity - 1];
    }
  }
}
