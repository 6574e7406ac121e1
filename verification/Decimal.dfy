// Decimal text of natural numbers, as printf writes it and as the readers of
// array bounds and character references take it apart.
module Decimal {

  predicate IsDigit(c: char) {
    '0' <= c <= '9'
  }

  predicate AllDigits(s: string) {
    forall i :: 0 <= i < |s| ==> IsDigit(s[i])
  }

  function DigitValue(c: char): (d: nat)
    requires IsDigit(c)
    ensures d < 10
  {
    c as int - '0' as int
  }

  function DigitChar(d: nat): (c: char)
    requires d < 10
    ensures IsDigit(c) && DigitValue(c) == d
  {
    ('0' as int + d) as char
  }

  // What printf writes for "%d" of a number that is not negative.
  function Print(n: nat): (s: string)
    ensures |s| > 0 && AllDigits(s)
  {
    if n < 10 then [DigitChar(n)] else Print(n / 10) + [DigitChar(n % 10)]
  }

  // And for any integer.
  function PrintInt(n: int): string {
    if n < 0 then "-" + Print(-n) else Print(n)
  }

  // The number a digit string denotes, most significant digit first.
  function Value(s: string): nat
    requires AllDigits(s)
  {
    if s == [] then 0 else 10 * Value(s[..|s| - 1]) + DigitValue(s[|s| - 1])
  }

  // The way printf writes numbers: no superfluous leading zero.
  predicate Canonical(s: string) {
    AllDigits(s) && |s| > 0 && (s[0] == '0' ==> |s| == 1)
  }

  lemma {:induction false} PrintValue(n: nat)
    ensures Value(Print(n)) == n
    ensures Canonical(Print(n))
    ensures n > 0 ==> Print(n)[0] != '0'
  {
    if n >= 10 {
      var front, last := Print(n / 10), DigitChar(n % 10);
      PrintValue(n / 10);
      assert (front + [last])[..|front|] == front;
    } else {
      assert Print(n)[..0] == [];
    }
  }

  lemma {:induction false} ValuePrint(s: string)
    requires Canonical(s)
    ensures Print(Value(s)) == s
    ensures s[0] != '0' ==> Value(s) > 0
  {
    var front := s[..|s| - 1];
    assert s == front + [s[|s| - 1]];
    if |s| == 1 {
      assert front == [];
      assert Value(front) == 0;
    } else {
      ValuePrint(front);
    }
  }

  // Ten digits suffice for every 31-bit number.
  lemma {:induction false} PrintLength(n: nat, digits: nat, bound: nat)
    requires n < bound && bound == Power10(digits) && digits > 0
    ensures |Print(n)| <= digits
    decreases digits
  {
    if n >= 10 {
      PrintLength(n / 10, digits - 1, Power10(digits - 1));
    }
  }

  function Power10(k: nat): nat {
    if k == 0 then 1 else 10 * Power10(k - 1)
  }

  // Reading on can only make the value larger.
  lemma {:induction false} ValueMonotone(s: string, k: nat)
    requires AllDigits(s) && k <= |s|
    ensures Value(s[..k]) <= Value(s)
    decreases |s|
  {
    if k < |s| {
      var front := s[..|s| - 1];
      ValueMonotone(front, k);
      assert front[..k] == s[..k];
    } else {
      assert s[..k] == s;
    }
  }

  lemma DigitListed(c: char)
    ensures IsDigit(c) <==> c in {'0', '1', '2', '3', '4', '5', '6', '7', '8', '9'}
  {
  }

  // Numbers as one knows them.
  lemma Examples()
    ensures forall d :: 0 <= d < 10 ==> var c := "0123456789"[d]; IsDigit(c) && DigitValue(c) == d
    ensures Value("0") == 0 && Value("10") == 10 && Value("1224") == 1224
    ensures PrintInt(-1) == "-1" && PrintInt(9) == "9" && PrintInt(1223) == "1223"
  {
    assert "1224"[..3] == "122" && "122"[..2] == "12" && "12"[..1] == "1" && "10"[..1] == "1" && "1"[..0] == "";
    assert Print(122) == "122";
  }
}
