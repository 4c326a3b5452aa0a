/** UTF-8 (RFC 3629) over Unicode scalar values: a strict decoder, and the fact that byte order on
    encoded strings is code point order. */
module Utf8 {
  import opened Ascii

  datatype Option<+T> = None | Some(value: T)

  function Cons<T>(x: T, k: seq<T>): (r: seq<T>)
    ensures |r| == |k| + 1 && r[0] == x && r[1..] == k
  {
    [x] + k
  }

  /** 64 to the power of w: how many values w continuation bytes can hold. */
  function P(w: nat): (r: int)
    requires w <= 3
    ensures r > 0
  {
    if w == 0 then 1 else if w == 1 then 64 else if w == 2 then 4096 else 262144
  }

  lemma DivMod(r: int, w: nat)
    requires 1 <= w <= 3 && 0 <= r < P(w)
    ensures 0 <= r / P(w - 1) < 64 && 0 <= r % P(w - 1) < P(w - 1)
    ensures r == r / P(w - 1) * P(w - 1) + r % P(w - 1)
  {
  }

  /** The continuation bytes of r, high bits first, followed by k. */
  function PutRest(r: int, w: nat, k: Bytes): (b: Bytes)
    requires w <= 3 && 0 <= r < P(w)
    ensures |b| == |k| + w
  {
    if w == 0 then k else
      DivMod(r, w);
      Cons(0x80 + r / P(w - 1), PutRest(r % P(w - 1), w - 1, k))
  }

  /** How many continuation bytes a code point takes, and the base of its lead byte. */
  function Width(n: int): (w: nat)
    ensures w <= 3
  {
    if n < 0x80 then 0 else if n < 0x800 then 1 else if n < 0x1_0000 then 2 else 3
  }

  function Lead(w: nat): int
    requires w <= 3
  {
    if w == 0 then 0 else if w == 1 then 0xC0 else if w == 2 then 0xE0 else 0xF0
  }

  /** How far the lead bytes of a width reach. */
  function Room(w: nat): int
    requires w <= 3
  {
    if w == 0 then 0x80 else if w == 1 then 0x20 else if w == 2 then 0x10 else 8
  }

  lemma LeadFits(n: int)
    requires 0 <= n < 0x11_0000
    ensures 0 <= n / P(Width(n)) < Room(Width(n)) && 0 <= n % P(Width(n)) < P(Width(n))
    ensures n == n / P(Width(n)) * P(Width(n)) + n % P(Width(n))
  {
  }

  /** The bytes of one code point, followed by k. */
  function PutPoint(c: char, k: Bytes): (r: Bytes)
    ensures |r| > |k|
  {
    var n := c as int;
    var w := Width(n);
    LeadFits(n);
    Cons(Lead(w) + n / P(w), PutRest(n % P(w), w, k))
  }

  /** The bytes of a string, followed by k. */
  function Put(s: string, k: Bytes): Bytes {
    if s == "" then k else PutPoint(s[0], Put(s[1..], k))
  }

  function Encode(s: string): Bytes {
    Put(s, [])
  }

  function TakeRest(b: Bytes, w: nat): (r: Option<(int, Bytes)>)
    requires w <= 3
    ensures r.Some? ==> |r.value.1| == |b| - w && 0 <= r.value.0 < P(w)
  {
    if w == 0 then Some((0, b))
    else if b == [] || b[0] < 0x80 || b[0] >= 0xC0 then None
    else
      var t := TakeRest(b[1..], w - 1);
      if t.None? then None else Some(((b[0] as int - 0x80) * P(w - 1) + t.value.0, t.value.1))
  }

  predicate IsScalar(n: int) {
    0 <= n < 0xD800 || 0xE000 <= n < 0x11_0000
  }

  /** The width a lead byte announces; None for continuation and invalid bytes. */
  function WidthOf(lead: byte): (w: Option<nat>)
    ensures w.Some? ==> w.value <= 3 && Lead(w.value) <= lead < Lead(w.value) + Room(w.value)
  {
    if lead < 0x80 then Some(0)
    else if 0xC0 <= lead < 0xE0 then Some(1)
    else if 0xE0 <= lead < 0xF0 then Some(2)
    else if 0xF0 <= lead < 0xF8 then Some(3)
    else None
  }

  /** Strict decoding of one code point: no overlong form, no surrogate, nothing past U+10FFFF. */
  function TakePoint(b: Bytes): (r: Option<(char, Bytes)>)
    ensures r.Some? ==> |r.value.1| < |b|
  {
    if b == [] || WidthOf(b[0]).None? then None else
      var w := WidthOf(b[0]).value;
      var t := TakeRest(b[1..], w);
      if t.None? then None else
        var n := (b[0] as int - Lead(w)) * P(w) + t.value.0;
        if IsScalar(n) && Width(n) == w then Some((n as char, t.value.1)) else None
  }

  function Decode(b: Bytes): Option<string>
    decreases |b|
  {
    if b == [] then Some("") else
      var p := TakePoint(b);
      if p.None? then None else
        var s := Decode(p.value.1);
        if s.None? then None else Some([p.value.0] + s.value)
  }

  lemma {:induction false} TakeRestOfPut(r: int, w: nat, k: Bytes)
    requires w <= 3 && 0 <= r < P(w)
    ensures TakeRest(PutRest(r, w, k), w) == Some((r, k))
  {
    if w > 0 {
      DivMod(r, w);
      TakeRestOfPut(r % P(w - 1), w - 1, k);
    }
  }

  lemma {:induction false} PutRestOfTake(b: Bytes, w: nat)
    requires w <= 3 && TakeRest(b, w).Some?
    ensures PutRest(TakeRest(b, w).value.0, w, TakeRest(b, w).value.1) == b
  {
    if w > 0 {
      PutRestOfTake(b[1..], w - 1);
      Digits(b[0] as int - 0x80, TakeRest(b[1..], w - 1).value.0, w - 1);
    }
  }

  lemma Digits(h: int, l: int, w: nat)
    requires w <= 3 && 0 <= l < P(w)
    ensures (h * P(w) + l) / P(w) == h && (h * P(w) + l) % P(w) == l
  {
  }

  lemma TakeOfPut(c: char, k: Bytes)
    ensures TakePoint(PutPoint(c, k)) == Some((c, k))
  {
    var n := c as int;
    var w := Width(n);
    LeadFits(n);
    TakeRestOfPut(n % P(w), w, k);
  }

  lemma PutOfTake(b: Bytes)
    requires TakePoint(b).Some?
    ensures PutPoint(TakePoint(b).value.0, TakePoint(b).value.1) == b
  {
    var w := WidthOf(b[0]).value;
    PutRestOfTake(b[1..], w);
    Digits(b[0] as int - Lead(w), TakeRest(b[1..], w).value.0, w);
  }

  lemma {:induction false} DecodeOfEncode(s: string)
    ensures Decode(Encode(s)) == Some(s)
  {
    if s != "" {
      TakeOfPut(s[0], Put(s[1..], []));
      DecodeOfEncode(s[1..]);
      assert s == [s[0]] + s[1..];
    }
  }

  lemma {:induction false} EncodeOfDecode(b: Bytes)
    requires Decode(b).Some?
    ensures Encode(Decode(b).value) == b
    decreases |b|
  {
    if b != [] {
      PutOfTake(b);
      var (c, k) := TakePoint(b).value;
      EncodeOfDecode(k);
      var s := Decode(b).value;
      assert s[0] == c && s[1..] == Decode(k).value;
    }
  }

  /** Lexicographic order, as a program compares strings of code points or of bytes. */
  predicate Less(a: string, b: string) {
    b != "" && (a == "" || a[0] < b[0] || (a[0] == b[0] && Less(a[1..], b[1..])))
  }

  /** b goes on where a ends, or has the larger character where they first differ. */
  lemma {:induction false} LessMeans(a: string, b: string)
    ensures Less(a, b) <==>
      exists n :: 0 <= n <= |a| && n < |b| && a[..n] == b[..n] && (n == |a| || a[n] < b[n])
  {
    if a != "" && b != "" && a[0] == b[0] {
      LessMeans(a[1..], b[1..]);
      if Less(a[1..], b[1..]) {
        var u, v := a[1..], b[1..];
        var n :| 0 <= n <= |u| && n < |v| && u[..n] == v[..n] && (n == |u| || u[n] < v[n]);
        assert a[..n + 1] == [a[0]] + u[..n] && b[..n + 1] == [b[0]] + v[..n];
      }
      if n :| 0 <= n <= |a| && n < |b| && a[..n] == b[..n] && (n == |a| || a[n] < b[n]) {
        CommonPrefix(a, b, n);
      }
    } else if a != "" && b != "" {
      if n :| 0 <= n <= |a| && n < |b| && a[..n] == b[..n] && (n == |a| || a[n] < b[n]) {
        CommonPrefix(a, b, n);
      }
      assert a[..0] == b[..0];
    } else {
      assert a[..0] == b[..0];
    }
  }

  lemma CommonPrefix(a: string, b: string, n: nat)
    requires n <= |a| && n <= |b| && a[..n] == b[..n]
    ensures n > 0 ==> a[0] == b[0] && a[1..][..n - 1] == b[1..][..n - 1]
  {
    if n > 0 {
      assert a[..n][0] == a[0] && b[..n][0] == b[0];
      assert a[1..][..n - 1] == a[..n][1..] && b[1..][..n - 1] == b[..n][1..];
    }
  }

  predicate BytesLess(a: Bytes, b: Bytes) {
    b != [] && (a == [] || a[0] < b[0] || (a[0] == b[0] && BytesLess(a[1..], b[1..])))
  }

  lemma {:induction false} RestOrder(r: int, q: int, w: nat, k: Bytes, l: Bytes)
    requires w <= 3 && 0 <= r < q < P(w)
    ensures BytesLess(PutRest(r, w, k), PutRest(q, w, l)) && !BytesLess(PutRest(q, w, l), PutRest(r, w, k))
  {
    DivMod(r, w);
    DivMod(q, w);
    if r / P(w - 1) == q / P(w - 1) {
      RestOrder(r % P(w - 1), q % P(w - 1), w - 1, k, l);
    } else {
      assert r / P(w - 1) < q / P(w - 1);
    }
  }

  lemma PointsOrder(c: char, d: char, k: Bytes, l: Bytes)
    requires c < d
    ensures BytesLess(PutPoint(c, k), PutPoint(d, l)) && !BytesLess(PutPoint(d, l), PutPoint(c, k))
  {
    var m, n := c as int, d as int;
    LeadFits(m);
    LeadFits(n);
    var w := Width(m);
    if Width(n) == w && m / P(w) == n / P(w) {
      RestOrder(m % P(w), n % P(w), w, k, l);
    } else if Width(n) == w {
      assert m / P(w) < n / P(w);
    }
  }

  lemma {:induction false} SameRestOrder(r: int, w: nat, k: Bytes, l: Bytes)
    requires w <= 3 && 0 <= r < P(w)
    ensures BytesLess(PutRest(r, w, k), PutRest(r, w, l)) <==> BytesLess(k, l)
  {
    if w > 0 {
      DivMod(r, w);
      SameRestOrder(r % P(w - 1), w - 1, k, l);
    }
  }

  lemma SamePointOrder(c: char, k: Bytes, l: Bytes)
    ensures BytesLess(PutPoint(c, k), PutPoint(c, l)) <==> BytesLess(k, l)
  {
    LeadFits(c as int);
    SameRestOrder(c as int % P(Width(c as int)), Width(c as int), k, l);
  }

  /** Sorting keys by their UTF-8 bytes, as Go does, sorts them by code point, as Python does. */
  lemma {:induction false} ByteOrderIsCodePointOrder(a: string, b: string)
    ensures BytesLess(Encode(a), Encode(b)) <==> Less(a, b)
  {
    if a == "" || b == "" {
    } else if a[0] == b[0] {
      ByteOrderIsCodePointOrder(a[1..], b[1..]);
      SamePointOrder(a[0], Encode(a[1..]), Encode(b[1..]));
    } else if a[0] < b[0] {
      PointsOrder(a[0], b[0], Encode(a[1..]), Encode(b[1..]));
    } else {
      PointsOrder(b[0], a[0], Encode(b[1..]), Encode(a[1..]));
    }
  }

  /** The table of RFC 3629 section 3: a code point by its groups of six bits, a the first. */
  lemma EncodedPoint(a: int, b: int, c: int, d: int, x: char)
    requires 0 <= a && 0 <= b < 64 && 0 <= c < 64 && 0 <= d < 64
    ensures x as int < 0x80 ==> Encode([x]) == [x as int]
    ensures x as int == a * 64 + b && 0x80 <= x as int < 0x800 ==> Encode([x]) == [0xC0 + a, 0x80 + b]
    ensures x as int == a * 4096 + b * 64 + c && 0x800 <= x as int < 0x1_0000 ==>
      Encode([x]) == [0xE0 + a, 0x80 + b, 0x80 + c]
    ensures x as int == a * 262144 + b * 4096 + c * 64 + d && 0x1_0000 <= x as int ==>
      Encode([x]) == [0xF0 + a, 0x80 + b, 0x80 + c, 0x80 + d]
  {
    if x as int < 0x80 {
      OneByte(x);
    }
    if x as int == a * 64 + b && 0x80 <= x as int < 0x800 {
      TwoBytes(a, b, x);
    }
    if x as int == a * 4096 + b * 64 + c && 0x800 <= x as int < 0x1_0000 {
      ThreeBytes(a, b, c, x);
    }
    if x as int == a * 262144 + b * 4096 + c * 64 + d && 0x1_0000 <= x as int {
      FourBytes(a, b, c, d, x);
    }
  }

  lemma EncodeOne(x: char)
    ensures Encode([x]) == PutPoint(x, [])
  {
    assert [x][1..] == "";
    assert Put([x][1..], []) == [];
  }

  lemma OneByte(x: char)
    requires x as int < 0x80
    ensures Encode([x]) == [x as int]
  {
    EncodeOne(x);
    assert PutRest(0, 0, []) == [];
  }

  lemma TwoBytes(a: int, b: int, x: char)
    requires 0 <= b < 64 && x as int == a * 64 + b && 0x80 <= x as int < 0x800
    ensures Encode([x]) == [0xC0 + a, 0x80 + b]
  {
    EncodeOne(x);
    RestOne(b, []);
    assert x as int / 64 == a && x as int % 64 == b;
  }

  lemma ThreeBytes(a: int, b: int, c: int, x: char)
    requires 0 <= b < 64 && 0 <= c < 64 && x as int == a * 4096 + b * 64 + c && 0x800 <= x as int < 0x1_0000
    ensures Encode([x]) == [0xE0 + a, 0x80 + b, 0x80 + c]
  {
    EncodeOne(x);
    RestTwo(b, c);
    assert x as int / 4096 == a && x as int % 4096 == b * 64 + c;
  }

  lemma FourBytes(a: int, b: int, c: int, d: int, x: char)
    requires 0 <= b < 64 && 0 <= c < 64 && 0 <= d < 64
    requires x as int == a * 262144 + b * 4096 + c * 64 + d && 0x1_0000 <= x as int
    ensures Encode([x]) == [0xF0 + a, 0x80 + b, 0x80 + c, 0x80 + d]
  {
    EncodeOne(x);
    RestThree(b, c, d);
    assert x as int / 262144 == a && x as int % 262144 == b * 4096 + c * 64 + d;
  }

  lemma RestOne(b: int, k: Bytes)
    requires 0 <= b < 64
    ensures PutRest(b, 1, k) == Cons(0x80 + b, k)
  {
    assert PutRest(0, 0, k) == k;
  }

  lemma RestTwo(b: int, c: int)
    requires 0 <= b < 64 && 0 <= c < 64
    ensures PutRest(b * 64 + c, 2, []) == [0x80 + b, 0x80 + c]
  {
    RestOne(c, []);
    var r := b * 64 + c;
    assert r / 64 == b && r % 64 == c;
  }

  lemma RestThree(b: int, c: int, d: int)
    requires 0 <= b < 64 && 0 <= c < 64 && 0 <= d < 64
    ensures PutRest(b * 4096 + c * 64 + d, 3, []) == [0x80 + b, 0x80 + c, 0x80 + d]
  {
    RestTwo(c, d);
    var r := b * 4096 + c * 64 + d;
    assert r / 4096 == b && r % 4096 == c * 64 + d;
  }

  // ---- the order RFC 8785 section 3.2.3 asks for: UTF-16 code units ----

  type Units = seq<int>

  function PutUnits(c: char, k: Units): Units {
    var n := c as int;
    if n < 0x1_0000 then Cons(n, k)
    else Cons(0xD800 + (n - 0x1_0000) / 1024, Cons(0xDC00 + (n - 0x1_0000) % 1024, k))
  }

  function Utf16(s: string): Units {
    if s == "" then [] else PutUnits(s[0], Utf16(s[1..]))
  }

  /** One unit in the BMP, and a surrogate pair of ten bits each above it. */
  lemma UnitsOfPoint(x: char, high: int, low: int)
    requires 0 <= low < 1024
    ensures x as int < 0x1_0000 ==> Utf16([x]) == [x as int]
    ensures x as int == 0x1_0000 + high * 1024 + low && high >= 0 ==> Utf16([x]) == [0xD800 + high, 0xDC00 + low]
  {
    assert [x][1..] == "";
    assert Utf16([x][1..]) == [];
    assert Utf16([x]) == PutUnits(x, []);
  }

  predicate UnitsLess(a: Units, b: Units) {
    b != [] && (a == [] || a[0] < b[0] || (a[0] == b[0] && UnitsLess(a[1..], b[1..])))
  }

  predicate Straddle(m: int, n: int) {
    m >= 0x1_0000 && 0xE000 <= n < 0x1_0000
  }

  /** The first code points that differ are one outside the BMP and one in U+E000..U+FFFF. */
  predicate SurrogatesDecide(a: string, b: string) {
    if a == "" || b == "" then false
    else if a[0] == b[0] then SurrogatesDecide(a[1..], b[1..])
    else Straddle(a[0] as int, b[0] as int) || Straddle(b[0] as int, a[0] as int)
  }

  lemma UnitsOrder(c: char, d: char, k: Units, l: Units)
    requires c < d
    ensures (UnitsLess(PutUnits(c, k), PutUnits(d, l)) && !UnitsLess(PutUnits(d, l), PutUnits(c, k)))
      <==> !(0xE000 <= c as int < 0x1_0000 <= d as int)
    ensures UnitsLess(PutUnits(c, k), PutUnits(d, l)) || UnitsLess(PutUnits(d, l), PutUnits(c, k))
  {
    var x, y := PutUnits(c, k), PutUnits(d, l);
    if x[0] == y[0] {
      assert x[1..][0] < y[1..][0];
    }
  }

  /** The key order both encoders use is that of RFC 8785 for two keys exactly when surrogates do
      not decide between them; in particular for keys within the BMP. */
  lemma {:induction false} KeyOrderIsUtf16Order(a: string, b: string)
    ensures (UnitsLess(Utf16(a), Utf16(b)) <==> Less(a, b)) <==> !SurrogatesDecide(a, b)
  {
    if a != "" && b != "" {
      if a[0] == b[0] {
        KeyOrderIsUtf16Order(a[1..], b[1..]);
        assert UnitsLess(PutUnits(a[0], Utf16(a[1..])), PutUnits(a[0], Utf16(b[1..])))
          <==> UnitsLess(Utf16(a[1..]), Utf16(b[1..]));
      } else if a[0] < b[0] {
        UnitsOrder(a[0], b[0], Utf16(a[1..]), Utf16(b[1..]));
      } else {
        UnitsOrder(b[0], a[0], Utf16(b[1..]), Utf16(a[1..]));
      }
    }
  }

  /** U+E000 comes before U+10000, but after it in UTF-16, where U+10000 is a surrogate pair. */
  lemma SurrogatesSortFirst()
    ensures Less("\U{E000}", "\U{10000}") && UnitsLess(Utf16("\U{10000}"), Utf16("\U{E000}"))
  {
    UnitsOrder('\U{E000}', '\U{10000}', Utf16(""), Utf16(""));
  }
}
