// Output buffers that are filled from the front.
module Buffers {

  // The result code of a conversion and what it has written.
  datatype Outcome<T> = Outcome(code: int, out: seq<T>)

  // now holds out in front of what was there before.
  ghost predicate Holds<T>(now: seq<T>, out: seq<T>, was: seq<T>) {
    |out| <= |was| && now == out + was[|out|..]
  }

  // strncpy of a text without terminator to the end of what is written.
  method Append<T>(buf: array<T>, at: nat, t: seq<T>, ghost out: seq<T>, ghost was: seq<T>)
    requires Holds(buf[..], out, was) && at == |out| && at + |t| <= buf.Length
    modifies buf
    ensures Holds(buf[..], out + t, was)
  {
    var i := 0;
    while i < |t|
      invariant 0 <= i <= |t|
      invariant forall k :: 0 <= k < at ==> buf[k] == out[k]
      invariant forall k :: 0 <= k < i ==> buf[at + k] == t[k]
      invariant forall k :: at + i <= k < buf.Length ==> buf[k] == was[k]
    {
      buf[at + i] := t[i];
      i := i + 1;
    }
    assert buf[..] == (out + t) + was[|out + t|..];
  }
}
