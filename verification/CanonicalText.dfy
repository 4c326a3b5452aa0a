/** The canonical text of a document, as json.dumps prints its normal form, and a strict decoder that
    accepts exactly the canonical texts. Printers take the text that follows, k. */
module CanonicalText {
  import opened Ascii
  import opened Utf8
  import opened Json

  // ---- characters ----

  /** The letter of a two-character escape. */
  function Short(c: char): Option<char> {
    if c == '\"' then Some('\"') else if c == '\\' then Some('\\')
    else if c as int == 8 then Some('b') else if c as int == 12 then Some('f')
    else if c as int == 10 then Some('n') else if c as int == 13 then Some('r')
    else if c as int == 9 then Some('t') else None
  }

  function OfShort(l: char): Option<char> {
    if l == '\"' then Some('\"') else if l == '\\' then Some('\\')
    else if l == 'b' then Some(8 as char) else if l == 'f' then Some(12 as char)
    else if l == 'n' then Some(10 as char) else if l == 'r' then Some(13 as char)
    else if l == 't' then Some(9 as char) else None
  }

  function Hex(d: int): char
    requires 0 <= d < 16
  {
    if d < 10 then (48 + d) as char else (87 + d) as char
  }

  function OfHex(c: char): Option<int> {
    if '0' <= c <= '9' then Some(c as int - 48) else if 'a' <= c <= 'f' then Some(c as int - 87) else None
  }

  function PutChar(c: char, k: string): (r: string)
    ensures |r| > |k| && r[0] != '\"'
  {
    if Short(c).Some? then Cons('\\', Cons(Short(c).value, k))
    else if c < ' ' then
      Cons('\\', Cons('u', Cons('0', Cons('0', Cons(Hex(c as int / 16), Cons(Hex(c as int % 16), k))))))
    else Cons(c, k)
  }

  function PutChars(s: string, k: string): (r: string)
    ensures |r| >= |k|
  {
    if s == "" then k else PutChar(s[0], PutChars(s[1..], k))
  }

  /** A quoted string. */
  function PutString(s: string, k: string): (r: string)
    ensures |r| > |k|
  {
    Cons('\"', PutChars(s, Cons('\"', k)))
  }

  // ---- numbers ----

  function NatText(n: nat): (t: string)
    ensures t != "" && forall i :: 0 <= i < |t| ==> '0' <= t[i] <= '9'
  {
    if n < 10 then [Hex(n)] else NatText(n / 10) + [Hex(n % 10)]
  }

  function IntText(n: int): (t: string)
    ensures t != "" && (t[0] == '-' || '0' <= t[0] <= '9')
    ensures forall i :: 0 <= i < |t| ==> IsNumberChar(t[i]) && !IsFracChar(t[i])
  {
    if n < 0 then ['-'] + NatText(-n) else NatText(n)
  }

  function NumberText(n: Number): string {
    match n
    case Int(i) => IntText(i)
    case Whole(w) => IntText(w)
    case Frac(token) => token
    case NonFinite => ""
  }

  // ---- values ----

  function PutValue(v: Json, k: string): string
    decreases v
  {
    match v
    case Null => "null" + k
    case Bool(b) => (if b then "true" else "false") + k
    case Num(n) => NumberText(n) + k
    case Str(s) => PutString(s, k)
    case Arr(items) => Cons('[', if items == [] then Cons(']', k) else PutItems(items, k))
    case Obj(ms) => Cons('{', if ms == [] then Cons('}', k) else PutMembers(ms, k))
  }

  function PutItems(items: seq<Json>, k: string): string
    requires items != []
    decreases items
  {
    PutValue(items[0], if |items| == 1 then Cons(']', k) else Cons(',', PutItems(items[1..], k)))
  }

  function PutMembers(ms: seq<Member>, k: string): string
    requires ms != []
    decreases ms
  {
    PutString(ms[0].key, Cons(':',
      PutValue(ms[0].value, if |ms| == 1 then Cons('}', k) else Cons(',', PutMembers(ms[1..], k)))))
  }

  function Dumps(v: Json): string {
    PutValue(v, "")
  }

  /** canonical_json: the UTF-8 bytes of the printed normal form; NaN and the infinities are refused. */
  function CanonicalJson(v: Json): Option<Bytes> {
    if Finite(v) then Some(Encode(Dumps(Canon(v)))) else None
  }

  // ---- the decoder ----

  type Taken<T> = Option<(T, string)>

  function TakeChar(s: string): (r: Taken<char>)
    ensures r.Some? ==> |r.value.1| < |s|
  {
    if s == "" || s[0] == '\"' then None
    else if s[0] != '\\' then if s[0] < ' ' then None else Some((s[0], s[1..]))
    else if |s| < 2 then None
    else if s[1] != 'u' then
      var c := OfShort(s[1]);
      if c.Some? then Some((c.value, s[2..])) else None
    else if |s| < 6 || s[2] != '0' || s[3] != '0' || OfHex(s[4]).None? || OfHex(s[5]).None? then None
    else
      var n := OfHex(s[4]).value * 16 + OfHex(s[5]).value;
      if 0 <= n < 32 && Short(n as char).None? then Some((n as char, s[6..])) else None
  }

  /** The characters up to the closing quote, which is taken too. */
  function TakeChars(s: string): (r: Taken<string>)
    ensures r.Some? ==> |r.value.1| < |s|
    decreases |s|
  {
    if s == "" then None
    else if s[0] == '\"' then Some(("", s[1..]))
    else
      var c := TakeChar(s);
      if c.None? then None else
        var t := TakeChars(c.value.1);
        if t.None? then None else Some((Cons(c.value.0, t.value.0), t.value.1))
  }

  /** A string, its opening quote included. */
  function TakeString(s: string): (r: Taken<string>)
    ensures r.Some? ==> |r.value.1| < |s|
  {
    if s == "" || s[0] != '\"' then None else TakeChars(s[1..])
  }

  function TokenLength(s: string): (n: nat)
    ensures n <= |s|
  {
    if s == "" || !IsNumberChar(s[0]) then 0 else 1 + TokenLength(s[1..])
  }

  function Value(t: string): nat {
    if t == "" then 0 else
      var c := t[|t| - 1];
      Value(t[..|t| - 1]) * 10 + (if '0' <= c <= '9' then c as int - 48 else 0)
  }

  function OfToken(t: string): Option<Number> {
    if IsFracToken(t) then Some(Frac(t)) else
      var n := if t != "" && t[0] == '-' then -(Value(t[1..]) as int) else Value(t);
      if IntText(n) == t then Some(Int(n)) else None
  }

  function Literal(s: string, word: string, v: Json): (r: Taken<Json>)
    requires word != ""
    ensures r.Some? ==> |r.value.1| < |s|
  {
    if |s| >= |word| && s[..|word|] == word then Some((v, s[|word|..])) else None
  }

  function TakeValue(s: string): (r: Taken<Json>)
    ensures r.Some? ==> |r.value.1| < |s|
    decreases |s|, 1
  {
    if s == "" then None
    else if s[0] == '-' || '0' <= s[0] <= '9' then TakeNumber(s)
    else if s[0] == 'n' then Literal(s, "null", Null)
    else if s[0] == 't' then Literal(s, "true", Bool(true))
    else if s[0] == 'f' then Literal(s, "false", Bool(false))
    else if s[0] == '\"' then
      var t := TakeString(s);
      if t.None? then None else Some((Str(t.value.0), t.value.1))
    else if s[0] == '[' then TakeArray(s[1..])
    else if s[0] == '{' then TakeObject(s[1..])
    else None
  }

  function TakeNumber(s: string): (r: Taken<Json>)
    ensures r.Some? ==> |r.value.1| < |s|
  {
    var l := TokenLength(s);
    var n := OfToken(s[..l]);
    if l == 0 || n.None? then None else Some((Num(n.value), s[l..]))
  }

  /** What follows an opening bracket. */
  function TakeArray(s: string): (r: Taken<Json>)
    ensures r.Some? ==> |r.value.1| < |s|
    decreases |s|, 3
  {
    if s != "" && s[0] == ']' then Some((Arr([]), s[1..])) else
      var t := TakeItems(s);
      if t.None? then None else Some((Arr(t.value.0), t.value.1))
  }

  /** What follows an opening brace. */
  function TakeObject(s: string): (r: Taken<Json>)
    ensures r.Some? ==> |r.value.1| < |s|
    decreases |s|, 3
  {
    if s != "" && s[0] == '}' then Some((Obj([]), s[1..])) else
      var t := TakeMembers(s);
      if t.None? then None else Some((Obj(t.value.0), t.value.1))
  }

  function TakeItems(s: string): (r: Taken<seq<Json>>)
    ensures r.Some? ==> |r.value.1| < |s| && r.value.0 != []
    decreases |s|, 2
  {
    var v := TakeValue(s);
    if v.None? || v.value.1 == "" then None else
      var (x, rest) := v.value;
      if rest[0] == ']' then Some(([x], rest[1..]))
      else if rest[0] != ',' then None
      else
        var t := TakeItems(rest[1..]);
        if t.None? then None else Some((Cons(x, t.value.0), t.value.1))
  }

  function TakeMembers(s: string): (r: Taken<seq<Member>>)
    ensures r.Some? ==> |r.value.1| < |s| && r.value.0 != []
    decreases |s|, 2
  {
    var key := TakeString(s);
    if key.None? || key.value.1 == "" || key.value.1[0] != ':' then None else
      var v := TakeValue(key.value.1[1..]);
      if v.None? || v.value.1 == "" then None else
        var m, rest := Member(key.value.0, v.value.0), v.value.1;
        if rest[0] == '}' then Some(([m], rest[1..]))
        else if rest[0] != ',' then None
        else
          var t := TakeMembers(rest[1..]);
          if t.None? || !Less(m.key, t.value.0[0].key) then None else Some((Cons(m, t.value.0), t.value.1))
  }

  /** The document a canonical byte string stands for; None when it is not canonical. */
  function Decoded(b: Bytes): Option<Json> {
    var t := Decode(b);
    if t.None? then None else
      var v := TakeValue(t.value);
      if v.Some? && v.value.1 == "" then Some(v.value.0) else None
  }
}
