/** Card and routing number checksums over the ASCII digits of a string. */
module Luhn {

  predicate IsDigit(c: char) {
    '0' <= c <= '9'
  }

  /** The digits of a string; everything else is stripped. */
  function Digits(s: string): (d: seq<int>)
    ensures forall i :: 0 <= i < |d| ==> 0 <= d[i] <= 9
  {
    if s == "" then []
    else if IsDigit(s[0]) then [s[0] as int - 48] + Digits(s[1..])
    else Digits(s[1..])
  }

  predicate AreDigits(d: seq<int>) {
    forall i :: 0 <= i < |d| ==> 0 <= d[i] <= 9
  }

  /** The digits of a text are its characters 0 to 9 by their values, in order. */
  lemma {:induction false} DigitsOfText(a: string, n: nat, c: char, b: string)
    requires n < 10
    ensures Digits(a + ["0123456789"[n]] + b) == Digits(a) + [n] + Digits(b)
    ensures !('0' <= c <= '9') ==> Digits(a + [c] + b) == Digits(a) + Digits(b)
  {
    var d := "0123456789"[n];
    if a == "" {
      assert (a + [d] + b)[1..] == b && (a + [c] + b)[1..] == b;
    } else {
      assert (a + [d] + b)[1..] == a[1..] + [d] + b && (a + [c] + b)[1..] == a[1..] + [c] + b;
      DigitsOfText(a[1..], n, c, b);
    }
  }

  /** What a digit counts: doubled, with the digits of the double added up, in every second place. */
  function Weighed(x: int, doubled: bool): int {
    if doubled then if 2 * x > 9 then 2 * x - 9 else 2 * x else x
  }

  /** The checksum; places are counted from the right, so a place is known by how many follow it. */
  function Sum(d: seq<int>): int {
    if d == [] then 0 else Weighed(d[0], |d| % 2 == 0) + Sum(d[1..])
  }

  predicate Accepted(d: seq<int>) {
    |d| >= 13 && Sum(d) % 10 == 0
  }

  method Check(s: string) returns (ok: bool)
    ensures ok <==> Accepted(Digits(s))
    ensures ok <==> |Digits(s)| >= 13 && Sum(Digits(s)) % 10 == 0
  {
    var d := Digits(s);
    if |d| < 13 {
      return false;
    }
    var checksum := 0;
    for i := 0 to |d|
      invariant checksum == Sum(d[|d| - i..])
    {
      var x := d[|d| - 1 - i];
      assert d[|d| - 1 - i..][0] == x && d[|d| - 1 - i..][1..] == d[|d| - i..];
      if i % 2 == 1 {
        x := x * 2;
        if x > 9 {
          x := x - 9;
        }
      }
      checksum := checksum + x;
    }
    assert d[0..] == d;
    return checksum % 10 == 0;
  }

  // ---- error detection ----

  /** Changing one digit changes the sum by the difference of what the two count in that place. */
  lemma {:induction false} SumOfChange(d: seq<int>, i: nat, x: int)
    requires i < |d|
    ensures Sum(d[i := x]) - Sum(d) == Weighed(x, (|d| - i) % 2 == 0) - Weighed(d[i], (|d| - i) % 2 == 0)
  {
    if i == 0 {
      assert d[i := x][1..] == d[1..];
    } else {
      assert d[i := x][1..] == d[1..][i - 1 := x];
      SumOfChange(d[1..], i - 1, x);
    }
  }

  /** What a digit x counts in a place that n digits follow: itself in every second place from the last
      on, the digits of its double in the others. */
  lemma SumByPlaces(d: seq<int>, i: nat, x: int)
    requires AreDigits(d) && i < |d| && 0 <= x <= 9
    ensures var n := |d| - 1 - i;
      Sum(d[i := x]) - Sum(d[i := 0]) == if n % 2 == 0 then x else 2 * x / 10 + 2 * x % 10
  {
    SumOfChange(d[i := 0], i, x);
    assert d[i := 0][i := x] == d[i := x];
  }

  lemma {:induction false} ZerosCountNothing(d: seq<int>)
    requires forall i :: 0 <= i < |d| ==> d[i] == 0
    ensures Sum(d) == 0
  {
    if d != [] {
      ZerosCountNothing(d[1..]);
    }
  }

  lemma SameLastDigit(a: int, b: int)
    requires b % 10 == 0
    ensures a % 10 == 0 <==> (a - b) % 10 == 0
  {
  }

  lemma WeighedIsInjective(x: int, y: int, doubled: bool)
    requires 0 <= x <= 9 && 0 <= y <= 9 && (Weighed(x, doubled) - Weighed(y, doubled)) % 10 == 0
    ensures x == y
  {
  }

  /** Any single wrong digit is noticed. */
  lemma SubstitutionIsRejected(d: seq<int>, i: nat, x: int)
    requires AreDigits(d) && Accepted(d) && i < |d| && 0 <= x <= 9 && x != d[i]
    ensures !Accepted(d[i := x])
  {
    SumOfChange(d, i, x);
    SameLastDigit(Sum(d[i := x]), Sum(d));
    if Accepted(d[i := x]) {
      WeighedIsInjective(x, d[i], (|d| - i) % 2 == 0);
    }
  }

  function Swapped(d: seq<int>, i: nat): (r: seq<int>)
    requires i + 1 < |d|
    ensures |r| == |d|
  {
    d[i := d[i + 1]][i + 1 := d[i]]
  }

  /** Swapping two neighbours goes unnoticed exactly when they are equal or a 0 and a 9. */
  lemma SwapIsRejected(d: seq<int>, i: nat)
    requires AreDigits(d) && Accepted(d) && i + 1 < |d|
    ensures Accepted(Swapped(d, i)) <==>
      d[i] == d[i + 1] || (d[i] == 0 && d[i + 1] == 9) || (d[i] == 9 && d[i + 1] == 0)
  {
    var a, b := d[i], d[i + 1];
    SumOfChange(d, i, b);
    SumOfChange(d[i := b], i + 1, a);
    SameLastDigit(Sum(Swapped(d, i)), Sum(d));
    SwapOfDigits(a, b, (|d| - i) % 2 == 0);
  }

  lemma SwapOfDigits(a: int, b: int, doubled: bool)
    requires 0 <= a <= 9 && 0 <= b <= 9
    ensures (Weighed(b, doubled) + Weighed(a, !doubled) - Weighed(a, doubled) - Weighed(b, !doubled)) % 10 == 0
      <==> a == b || (a == 0 && b == 9) || (a == 9 && b == 0)
  {
  }

  /** Every prefix of at least twelve digits is completed by exactly one check digit. */
  lemma OneCheckDigit(p: seq<int>) returns (c: int)
    requires AreDigits(p) && |p| >= 12
    ensures 0 <= c <= 9 && forall x :: 0 <= x <= 9 ==> (Accepted(p + [x]) <==> x == c)
  {
    var zero := p + [0];
    c := (10 - Sum(zero) % 10) % 10;
    forall x | 0 <= x <= 9 ensures Accepted(p + [x]) <==> x == c {
      SumOfChange(zero, |p|, x);
      assert zero[|p| := x] == p + [x];
    }
  }

  // ---- routing numbers ----

  function AbaSum(d: seq<int>): int
    requires |d| == 9
  {
    3 * (d[0] + d[3] + d[6]) + 7 * (d[1] + d[4] + d[7]) + (d[2] + d[5] + d[8])
  }

  predicate AbaAccepted(d: seq<int>) {
    |d| == 9 && AbaSum(d) % 10 == 0
  }

  /** A wrong digit in a routing number is noticed. */
  lemma AbaSubstitution(d: seq<int>, i: nat, x: int)
    requires AreDigits(d) && AbaAccepted(d) && i < 9 && 0 <= x <= 9
    ensures AbaAccepted(d[i := x]) <==> x == d[i]
  {
    SameLastDigit(AbaSum(d[i := x]), AbaSum(d));
    Unnoticed(x - d[i]);
  }

  /** Which changes the weights 3, 7 and 1 hide, and which their differences do. */
  lemma Unnoticed(x: int)
    requires -9 <= x <= 9
    ensures (3 * x) % 10 == 0 <==> x == 0
    ensures (7 * x) % 10 == 0 <==> x == 0
    ensures x % 10 == 0 <==> x == 0
  {
  }

  lemma HalfUnnoticed(x: int)
    requires -9 <= x <= 9
    ensures (4 * x) % 10 == 0 <==> x % 5 == 0
    ensures (6 * x) % 10 == 0 <==> x % 5 == 0
    ensures (2 * x) % 10 == 0 <==> x % 5 == 0
  {
  }

  /** A swap of neighbours goes unnoticed exactly when they are equal or differ by five. */
  lemma AbaSwap(d: seq<int>, i: nat)
    requires AreDigits(d) && AbaAccepted(d) && i < 8
    ensures AbaAccepted(Swapped(d, i)) <==> (d[i] - d[i + 1]) % 5 == 0
  {
    SameLastDigit(AbaSum(Swapped(d, i)), AbaSum(d));
    var x := d[i] - d[i + 1];
    HalfUnnoticed(x);
    NegativesToo(x);
  }

  lemma NegativesToo(x: int)
    ensures (-6 * x) % 10 == 0 <==> (6 * x) % 10 == 0
  {
  }

  /** The weights by place: 3, 7 and 1, three times over. */
  lemma AbaByPlaces(d: seq<int>, i: nat, x: int)
    requires |d| == 9 && i < 9
    ensures AbaSum(d[i := x]) - AbaSum(d[i := 0]) == if i % 3 == 0 then 3 * x else if i % 3 == 1 then 7 * x else x
    ensures (forall k :: 0 <= k < 9 ==> d[k] == 0) ==> AbaSum(d) == 0
    ensures AbaAccepted(d) <==> AbaSum(d) % 10 == 0
  {
  }
}
