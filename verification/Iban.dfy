/** The IBAN check: MOD 97-10 of ISO/IEC 7064 on the digit form, over ASCII strings. */
module Iban {

  // ---- the check ----

  predicate IsSpace(c: char) {
    c == ' ' || 9 <= c as int <= 13 || 28 <= c as int <= 31
  }

  function Upper(c: char): char {
    if 'a' <= c <= 'z' then (c as int - 32) as char else c
  }

  /** Without white space, in upper case. */
  function Cleaned(s: string): string {
    if s == "" then ""
    else if IsSpace(s[0]) then Cleaned(s[1..])
    else [Upper(s[0])] + Cleaned(s[1..])
  }

  predicate IsDigit(c: char) {
    '0' <= c <= '9'
  }

  predicate IsLetter(c: char) {
    'A' <= c <= 'Z'
  }

  predicate Legal(s: string) {
    forall i :: 0 <= i < |s| ==> IsDigit(s[i]) || IsLetter(s[i])
  }

  /** A = 10, …, Z = 35. */
  function Value(c: char): int {
    if IsDigit(c) then c as int - 48 else c as int - 55
  }

  /** A number with a character's value written after it: one decimal place for a digit, two for a
      letter. */
  function Followed(n: int, c: char): int {
    if IsDigit(c) then 10 * n + Value(c) else 100 * n + Value(c)
  }

  /** The number that the digit form spells. */
  function Number(s: string): int {
    if s == "" then 0 else Followed(Number(s[..|s| - 1]), s[|s| - 1])
  }

  function Rearranged(s: string): string
    requires |s| >= 4
  {
    s[4..] + s[..4]
  }

  /** Acceptance of a cleaned string. */
  predicate Accepted(s: string) {
    |s| >= 15 && Legal(s) && Number(Rearranged(s)) % 97 == 1
  }

  function DigitText(c: char): (t: string)
    requires IsDigit(c) || IsLetter(c)
    ensures forall i :: 0 <= i < |t| ==> IsDigit(t[i])
  {
    if IsDigit(c) then [c] else [(48 + Value(c) / 10) as char, (48 + Value(c) % 10) as char]
  }

  /** int() of a string of digits. */
  function Int(t: string): int {
    if t == "" then 0 else Int(t[..|t| - 1]) * 10 + (t[|t| - 1] as int - 48)
  }

  lemma IntOfMore(t: string, c: char)
    requires IsDigit(c) || IsLetter(c)
    ensures Int(t + DigitText(c)) == Followed(Int(t), c)
  {
    var u := t + DigitText(c);
    if IsDigit(c) {
      assert u[..|u| - 1] == t;
    } else {
      assert u[..|u| - 1] == t + [DigitText(c)[0]];
      assert (t + [DigitText(c)[0]])[..|t|] == t;
    }
  }

  /** A is 10 and each next letter one more; a digit is itself. */
  lemma ValuesInOrder(c: char)
    ensures Value('0') == 0 && Value('9') == 9 && Value('A') == 10 && Value('Z') == 35
    ensures ('0' <= c < '9' || 'A' <= c < 'Z') ==> Value((c as int + 1) as char) == Value(c) + 1
  {
  }

  lemma {:induction false} CleanedConcat(a: string, b: string)
    ensures Cleaned(a + b) == Cleaned(a) + Cleaned(b)
  {
    if a == "" {
      assert a + b == b;
    } else {
      assert (a + b)[1..] == a[1..] + b;
      CleanedConcat(a[1..], b);
    }
  }

  lemma CleanedOne(c: char)
    ensures Cleaned([c]) == if IsSpace(c) then "" else [Upper(c)]
  {
    assert [c][1..] == "";
  }

  /** Blanks and tabs do not count, nor does the case of a letter; a string of capital letters and digits
      is judged as it is. */
  lemma CaseAndSpaceDoNotCount(a: string, b: string, n: nat)
    requires n < 26
    ensures Cleaned(a + " " + b) == Cleaned(a + "\t" + b) == Cleaned(a + b)
    ensures Cleaned(a + ["abcdefghijklmnopqrstuvwxyz"[n]] + b) == Cleaned(a + ["ABCDEFGHIJKLMNOPQRSTUVWXYZ"[n]] + b)
    ensures Legal(a) ==> Cleaned(a) == a
  {
    var lower, upper := "abcdefghijklmnopqrstuvwxyz"[n], "ABCDEFGHIJKLMNOPQRSTUVWXYZ"[n];
    AlphabetUpper(n);
    CleanedAround(a, ' ', b);
    CleanedAround(a, '\t', b);
    CleanedAround(a, lower, b);
    CleanedAround(a, upper, b);
    CleanedConcat(a, b);
    if Legal(a) {
      LegalIsClean(a);
    }
  }

  lemma AlphabetUpper(n: nat)
    requires n < 26
    ensures Upper("abcdefghijklmnopqrstuvwxyz"[n]) == Upper("ABCDEFGHIJKLMNOPQRSTUVWXYZ"[n])
    ensures !IsSpace("abcdefghijklmnopqrstuvwxyz"[n]) && !IsSpace("ABCDEFGHIJKLMNOPQRSTUVWXYZ"[n])
  {
  }

  lemma CleanedAround(a: string, c: char, b: string)
    ensures Cleaned(a + [c] + b) == Cleaned(a) + (if IsSpace(c) then "" else [Upper(c)]) + Cleaned(b)
  {
    CleanedConcat(a + [c], b);
    CleanedConcat(a, [c]);
    CleanedOne(c);
  }

  lemma {:induction false} LegalIsClean(s: string)
    requires Legal(s)
    ensures Cleaned(s) == s
  {
    if s != "" {
      LegalIsClean(s[1..]);
      assert s == [s[0]] + s[1..];
    }
  }

  /** What is accepted: at least fifteen capital letters and digits whose number, the first four characters
      moved to the end, leaves 1 modulo 97. */
  lemma WhatIsAccepted(s: string)
    ensures Accepted(s) <==>
      (|s| >= 15 && (forall i :: 0 <= i < |s| ==> '0' <= s[i] <= '9' || 'A' <= s[i] <= 'Z')
        && Number(s[4..] + s[..4]) % 97 == 1)
  {
  }

  /** iban_checksum. */
  method Check(input: string) returns (ok: bool)
    ensures ok <==> Accepted(Cleaned(input))
  {
    var s := Cleaned(input);
    if |s| < 15 {
      return false;
    }
    var rearranged := Rearranged(s);
    LegalRearranged(s);
    var digitStr := "";
    for i := 0 to |rearranged|
      invariant Legal(rearranged[..i]) && Int(digitStr) == Number(rearranged[..i])
    {
      var ch := rearranged[i];
      assert rearranged[..i + 1][..i] == rearranged[..i];
      if !IsDigit(ch) && !IsLetter(ch) {
        return false;
      }
      IntOfMore(digitStr, ch);
      digitStr := digitStr + DigitText(ch);
    }
    assert rearranged[..|rearranged|] == rearranged;
    return Int(digitStr) % 97 == 1;
  }

  lemma LegalRearranged(s: string)
    requires |s| >= 4
    ensures Legal(s) <==> Legal(Rearranged(s))
  {
    if Legal(Rearranged(s)) {
      forall i | 0 <= i < |s| ensures IsDigit(s[i]) || IsLetter(s[i]) {
        assert s[i] == Rearranged(s)[if i < 4 then |s| - 4 + i else i - 4];
      }
    }
  }

  // ---- numbers modulo 97 ----

  /** d moved left by the places that s takes. */
  function Shifted(d: int, s: string): int {
    if s == "" then d
    else if IsDigit(s[|s| - 1]) then 10 * Shifted(d, s[..|s| - 1])
    else 100 * Shifted(d, s[..|s| - 1])
  }

  lemma {:induction false} NumberOfConcat(a: string, b: string)
    ensures Number(a + b) == Shifted(Number(a), b) + Number(b)
  {
    if b == "" {
      assert a + b == a;
    } else {
      var u := b[..|b| - 1];
      assert (a + b)[..|a + b| - 1] == a + u;
      NumberOfConcat(a, u);
    }
  }

  lemma {:induction false} ShiftedDifference(m: int, n: int, s: string)
    ensures Shifted(m, s) - Shifted(n, s) == Shifted(m - n, s)
  {
    if s != "" {
      ShiftedDifference(m, n, s[..|s| - 1]);
    }
  }

  /** 10 has the inverse 68 modulo 97. */
  lemma TenCancels(x: int)
    ensures (10 * x) % 97 == 0 <==> x % 97 == 0
  {
    if (10 * x) % 97 == 0 {
      var k := 10 * x / 97;
      assert 10 * x == 97 * k;
      assert x == 97 * (68 * k - 7 * x);
    } else {
      var k := x / 97;
      assert x == 97 * k + x % 97;
    }
  }

  /** Moving left does not change whether 97 divides. */
  lemma {:induction false} ShiftingCancels(d: int, s: string)
    ensures Shifted(d, s) % 97 == 0 <==> d % 97 == 0
  {
    if s != "" {
      var x := Shifted(d, s[..|s| - 1]);
      ShiftingCancels(d, s[..|s| - 1]);
      TenCancels(x);
      TenCancels(10 * x);
    }
  }

  /** Both take the same number of places. */
  ghost predicate SameWidth(x: string, y: string) {
    |x| == |y| && forall n :: Shifted(n, x) == Shifted(n, y)
  }

  lemma NumberOfThree(a: string, x: string, b: string) returns (n: int)
    ensures n == Number(a + x + b) && n == Shifted(Shifted(Number(a), x) + Number(x), b) + Number(b)
  {
    NumberOfConcat(a + x, b);
    NumberOfConcat(a, x);
    n := Number(a + x + b);
  }

  /** Two strings that differ only in a part of equal width agree modulo 97 exactly when the parts do. */
  lemma PartDecides(a: string, x: string, y: string, b: string) returns (m: int, n: int)
    requires SameWidth(x, y)
    ensures m == Number(a + x + b) && n == Number(a + y + b)
    ensures m % 97 == n % 97 <==> (Number(x) - Number(y)) % 97 == 0
  {
    m := NumberOfThree(a, x, b);
    n := NumberOfThree(a, y, b);
    PartsDecide(m, n, Number(a), x, y, b);
  }

  lemma PartsDecide(m: int, n: int, before: int, x: string, y: string, b: string)
    requires SameWidth(x, y)
    requires m == Shifted(Shifted(before, x) + Number(x), b) + Number(b)
    requires n == Shifted(Shifted(before, y) + Number(y), b) + Number(b)
    ensures m % 97 == n % 97 <==> (Number(x) - Number(y)) % 97 == 0
  {
    ShiftedDifference(Shifted(before, x) + Number(x), Shifted(before, y) + Number(y), b);
    DifferenceDecides(m, n, Number(x) - Number(y), b);
  }

  lemma DifferenceDecides(m: int, n: int, d: int, s: string)
    requires m - n == Shifted(d, s)
    ensures m % 97 == n % 97 <==> d % 97 == 0
  {
    ShiftingCancels(d, s);
    SameRemainder(m, n);
  }

  lemma SameRemainder(m: int, n: int)
    ensures m % 97 == n % 97 <==> (m - n) % 97 == 0
  {
    assert m - n == 97 * (m / 97 - n / 97) + (m % 97 - n % 97);
  }

  // ---- error detection ----

  /** Where a part before the fourth character goes. */
  lemma FrontPart(u: string, x: string, v: string)
    requires |u| + |x| <= 4 <= |u + x + v|
    ensures Rearranged(u + x + v) == (v[4 - |u| - |x|..] + u) + x + v[..4 - |u| - |x|]
  {
    var s, k := u + x + v, 4 - |u| - |x|;
    assert s[4..] == v[k..];
    assert s[..4] == u + x + v[..k];
  }

  /** Where a part after it goes. */
  lemma BackPart(u: string, x: string, v: string)
    requires |u| >= 4
    ensures Rearranged(u + x + v) == u[4..] + x + (v + u[..4])
  {
    var s := u + x + v;
    assert s[4..] == u[4..] + x + v;
    assert s[..4] == u[..4];
  }

  /** Replacing a part by one of equal width and legal characters, before or after the fourth character,
      goes unnoticed exactly when the numbers of the parts agree modulo 97. */
  lemma ReplacementIsRejected(u: string, x: string, y: string, v: string)
    requires Accepted(u + x + v) && (|u| + |x| <= 4 || 4 <= |u|)
    requires SameWidth(y, x) && Legal(y)
    ensures Accepted(u + y + v) <==> (Number(y) - Number(x)) % 97 == 0
  {
    LegalParts(u, x, y, v);
    if |u| + |x| <= 4 {
      FrontPart(u, x, v);
      FrontPart(u, y, v);
      var m, n := PartDecides(v[4 - |u| - |x|..] + u, y, x, v[..4 - |u| - |x|]);
    } else {
      BackPart(u, x, v);
      BackPart(u, y, v);
      var m, n := PartDecides(u[4..], y, x, v + u[..4]);
    }
  }

  lemma LegalParts(u: string, x: string, y: string, v: string)
    requires Legal(u + x + v) && Legal(y) && |y| == |x|
    ensures Legal(u + y + v)
  {
    var s, t := u + x + v, u + y + v;
    forall i | 0 <= i < |t| ensures IsDigit(t[i]) || IsLetter(t[i]) {
      assert t[i] == if |u| <= i < |u| + |y| then y[i - |u|] else s[i];
    }
  }

  predicate SameKind(c: char, d: char) {
    (IsDigit(c) && IsDigit(d)) || (IsLetter(c) && IsLetter(d))
  }

  lemma NumberOfOne(c: char, d: char)
    ensures Number([c]) == Value(c) && (SameKind(c, d) ==> SameWidth([c], [d]))
  {
    assert [c][..0] == "" && [d][..0] == "";
  }

  lemma NumberOfTwo(c: char, d: char)
    ensures Number([c, d]) == Followed(Value(c), d) && SameWidth([c, d], [d, c])
  {
    assert [c, d][..1] == [c] && [d, c][..1] == [d];
    NumberOfOne(c, c);
    forall n ensures Shifted(n, [c, d]) == Shifted(n, [d, c]) {
      assert [c][..0] == "" && [d][..0] == "";
    }
  }

  /** Any digit changed to another, and any letter changed to another, is noticed. */
  lemma SubstitutionIsRejected(s: string, i: nat, c: char)
    requires Accepted(s) && i < |s| && SameKind(s[i], c) && c != s[i]
    ensures !Accepted(s[i := c])
  {
    NumberOfOne(c, s[i]);
    NumberOfOne(s[i], c);
    assert s == s[..i] + [s[i]] + s[i + 1..];
    assert s[i := c] == s[..i] + [c] + s[i + 1..];
    ReplacementIsRejected(s[..i], [s[i]], [c], s[i + 1..]);
  }

  /** Swapping two neighbours, both among the first four characters or both after them, goes unnoticed
      exactly when they are equal or a digit and the letter worth eleven times the digit. */
  lemma SwapIsRejected(s: string, i: nat)
    requires Accepted(s) && i + 1 < |s| && (i + 1 < 4 || 4 <= i)
    ensures Accepted(s[i := s[i + 1]][i + 1 := s[i]]) <==>
      s[i] == s[i + 1] || Elevenfold(s[i], s[i + 1]) || Elevenfold(s[i + 1], s[i])
  {
    var c, d := s[i], s[i + 1];
    NumberOfTwo(c, d);
    NumberOfTwo(d, c);
    assert s == s[..i] + [c, d] + s[i + 2..];
    assert s[i := d][i + 1 := c] == s[..i] + [d, c] + s[i + 2..];
    ReplacementIsRejected(s[..i], [c, d], [d, c], s[i + 2..]);
    SwapOfTwo(c, d);
  }

  /** 1 and B, 2 and M, 3 and X. */
  predicate Elevenfold(c: char, d: char) {
    IsDigit(c) && IsLetter(d) && Value(d) == 11 * Value(c)
  }

  lemma SwapOfTwo(c: char, d: char)
    requires (IsDigit(c) || IsLetter(c)) && (IsDigit(d) || IsLetter(d))
    ensures (Followed(Value(d), c) - Followed(Value(c), d)) % 97 == 0
      <==> c == d || Elevenfold(c, d) || Elevenfold(d, c)
  {
    var x, y := Value(c), Value(d);
    if IsDigit(c) && IsDigit(d) {
      NineOf(x - y);
      assert y * 10 + x - (x * 10 + y) == -9 * (x - y);
    } else if IsLetter(c) && IsLetter(d) {
      assert y * 100 + x - (x * 100 + y) == 99 * (y - x);
    } else if IsDigit(c) {
      NineOf(11 * x - y);
      assert y * 10 + x - (x * 100 + y) == -9 * (11 * x - y);
    } else {
      NineOf(11 * y - x);
      assert y * 100 + x - (x * 10 + y) == 9 * (11 * y - x);
    }
  }

  /** 9 has the inverse 54 modulo 97. */
  lemma NineOf(x: int)
    requires -97 < x < 97
    ensures (9 * x) % 97 == 0 <==> x == 0
    ensures (-9 * x) % 97 == 0 <==> x == 0
  {
    if (9 * x) % 97 == 0 || (-9 * x) % 97 == 0 {
      var k := 9 * x / 97;
      assert 9 * x == 97 * k;
      assert x == 97 * (54 * k - 5 * x);
    }
  }

  /** The two check digits of a number below 100. */
  function Pair(p: int): string
    requires 0 <= p < 100
  {
    [(48 + p / 10) as char, (48 + p % 10) as char]
  }

  /** For a country and an account part exactly one check pair in 02..98 is accepted. */
  lemma OneCheckPair(country: string, account: string) returns (p: int)
    requires |country| == 2 && |account| >= 11 && Legal(country) && Legal(account)
    ensures 2 <= p <= 98
    ensures forall q :: 2 <= q <= 98 ==> (Accepted(country + Pair(q) + account) <==> q == p)
  {
    var m := Number(account + country);
    var r := (1 - 100 * m) % 97;
    p := if r < 2 then r + 97 else r;
    forall q | 2 <= q <= 98 ensures Accepted(country + Pair(q) + account) <==> q == p {
      NumberWithPair(country, account, q);
      OnePair(100 * m, p, q);
    }
  }

  lemma NumberWithPair(country: string, account: string, q: int)
    requires |country| == 2 && |account| >= 11 && Legal(country) && Legal(account) && 0 <= q < 100
    ensures Legal(country + Pair(q) + account)
    ensures Number(Rearranged(country + Pair(q) + account)) == 100 * Number(account + country) + q
  {
    PairComesLast(country, account, q);
    NumberOfConcat(account + country, Pair(q));
    NumberOfPair(q);
  }

  lemma PairComesLast(country: string, account: string, q: int)
    requires |country| == 2 && |account| >= 11 && Legal(country) && Legal(account) && 0 <= q < 100
    ensures Legal(country + Pair(q) + account)
    ensures Rearranged(country + Pair(q) + account) == (account + country) + Pair(q)
  {
    var s := country + Pair(q) + account;
    assert s[4..] == account && s[..4] == country + Pair(q);
  }

  lemma NumberOfPair(q: int)
    requires 0 <= q < 100
    ensures Number(Pair(q)) == q && forall n :: Shifted(n, Pair(q)) == 100 * n
  {
    NumberOfTwo(Pair(q)[0], Pair(q)[1]);
    var p := Pair(q);
    assert p[..1][..0] == "";
    forall n ensures Shifted(n, p) == 100 * n {
      assert Shifted(n, p[..1]) == 10 * Shifted(n, p[..1][..0]);
    }
  }

  lemma OnePair(m: int, p: int, q: int)
    requires 2 <= p <= 98 && 2 <= q <= 98 && (p == (1 - m) % 97 || p == (1 - m) % 97 + 97)
    ensures (m + q) % 97 == 1 <==> q == p
  {
  }
}
