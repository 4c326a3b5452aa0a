/** The text of a document as RFC 8259 describes it, written out as a whole, and what both printers, which
    build theirs back to front around the text that follows, have to do with it. */
module JsonText {
  import opened Utf8
  import opened Json
  import opened CanonicalText
  import opened GoCanonical

  const DIGITS := "0123456789abcdef"

  /** How a character stands in a string, with what Go escapes for HTML and JavaScript if go. */
  function Escaped(c: char, go: bool): string {
    if c == '\"' then "\\\"" else if c == '\\' then "\\\\"
    else if c == '\U{0008}' then "\\b" else if c == '\t' then "\\t" else if c == '\n' then "\\n"
    else if c == '\U{000C}' then "\\f" else if c == '\r' then "\\r"
    else if c < ' ' then "\\u00" + [if c < '\U{0010}' then '0' else '1'] + [DIGITS[c as int % 16]]
    else if go && c == '<' then "\\u003c" else if go && c == '>' then "\\u003e"
    else if go && c == '&' then "\\u0026"
    else if go && c == '\U{2028}' then "\\u2028" else if go && c == '\U{2029}' then "\\u2029"
    else [c]
  }

  function EscapedAll(s: string, go: bool): string {
    if s == "" then "" else Escaped(s[0], go) + EscapedAll(s[1..], go)
  }

  function Quoted(s: string, go: bool): string {
    "\"" + EscapedAll(s, go) + "\""
  }

  function Decimal(n: nat): string {
    if n < 10 then [DIGITS[n]] else Decimal(n / 10) + [DIGITS[n % 10]]
  }

  function Signed(i: int): string {
    if i < 0 then "-" + Decimal(-i) else Decimal(i)
  }

  function NumberAsText(n: Number): string {
    match n
    case Int(i) => Signed(i)
    case Whole(w) => Signed(w)
    case Frac(token) => token
    case NonFinite => ""
  }

  function Text(v: Json, go: bool): string
    decreases v
  {
    match v
    case Null => "null"
    case Bool(b) => if b then "true" else "false"
    case Num(n) => NumberAsText(n)
    case Str(s) => Quoted(s, go)
    case Arr(items) => "[" + ItemsText(items, go) + "]"
    case Obj(ms) => "{" + MembersText(ms, go) + "}"
  }

  /** The items with commas between. */
  function ItemsText(items: seq<Json>, go: bool): string
    decreases items
  {
    if items == [] then ""
    else if |items| == 1 then Text(items[0], go)
    else Text(items[0], go) + "," + ItemsText(items[1..], go)
  }

  function MembersText(ms: seq<Member>, go: bool): string
    decreases ms
  {
    if ms == [] then ""
    else if |ms| == 1 then Quoted(ms[0].key, go) + ":" + Text(ms[0].value, go)
    else Quoted(ms[0].key, go) + ":" + Text(ms[0].value, go) + "," + MembersText(ms[1..], go)
  }

  // ---- both printers print it ----

  /** Either printer. */
  function Print(v: Json, go: bool, k: string): string {
    if go then GoPutValue(v, k) else PutValue(v, k)
  }

  function PrintString(s: string, go: bool, k: string): string {
    if go then GoPutString(s, k) else PutString(s, k)
  }

  function PrintChars(s: string, go: bool, k: string): string {
    if go then GoPutChars(s, k) else PutChars(s, k)
  }

  lemma PrintedChar(c: char, go: bool, k: string)
    ensures (if go then GoPutChar(c, k) else PutChar(c, k)) == Escaped(c, go) + k
  {
    if go && IsSpecial(c) {
      SpecialEscapes(c, k);
    } else if Short(c).Some? {
    } else if c < ' ' {
      ControlEscapes(c, k);
    }
  }

  lemma ControlEscapes(c: char, k: string)
    requires c < ' ' && Short(c).None?
    ensures PutChar(c, k) == Escaped(c, false) + k == Escaped(c, true) + k
  {
    HexPair(c as int / 16, c as int % 16, k);
    EscapedControl(c);
  }

  lemma EscapedControl(c: char)
    requires c < ' ' && Short(c).None?
    ensures Escaped(c, false) == Escaped(c, true) == "\\u00" + [DIGITS[c as int / 16]] + [DIGITS[c as int % 16]]
  {
    assert DIGITS[c as int / 16] == if c < '\U{0010}' then '0' else '1';
  }

  lemma HexIsDigit(d: int)
    requires 0 <= d < 16
    ensures Hex(d) == DIGITS[d]
  {
  }

  lemma HexPair(d: int, e: int, k: string)
    requires 0 <= d < 16 && 0 <= e < 16
    ensures Cons('\\', Cons('u', Cons('0', Cons('0', Cons(Hex(d), Cons(Hex(e), k))))))
      == "\\u00" + [DIGITS[d]] + [DIGITS[e]] + k
  {
    HexIsDigit(d);
    HexIsDigit(e);
  }

  lemma SpecialEscapes(c: char, k: string)
    requires IsSpecial(c)
    ensures GoPutChar(c, k) == Escaped(c, true) + k
  {
    if c == '<' || c == '>' || c == '&' {
      HexPair(c as int / 16, c as int % 16, k);
      HtmlEscapes(c);
    }
  }

  lemma HtmlEscapes(c: char)
    requires c == '<' || c == '>' || c == '&'
    ensures Escaped(c, true) == "\\u00" + [DIGITS[c as int / 16]] + [DIGITS[c as int % 16]]
  {
  }

  lemma {:induction false} PrintedChars(s: string, go: bool, k: string)
    ensures PrintChars(s, go, k) == EscapedAll(s, go) + k
  {
    if s != "" {
      PrintedChars(s[1..], go, k);
      PrintedChar(s[0], go, PrintChars(s[1..], go, k));
    }
  }

  lemma PrintedString(s: string, go: bool, k: string)
    ensures PrintString(s, go, k) == Quoted(s, go) + k
  {
    PrintedChars(s, go, Cons('\"', k));
    Enclosed('\"', PrintChars(s, go, Cons('\"', k)), EscapedAll(s, go), '\"', k);
  }

  lemma {:induction false} PrintedNat(n: nat)
    ensures NatText(n) == Decimal(n)
  {
    HexIsDigit(n % 10);
    if n >= 10 {
      PrintedNat(n / 10);
    }
  }

  lemma PrintedInt(i: int)
    ensures IntText(i) == Signed(i)
  {
    if i < 0 {
      PrintedNat(-i);
    } else {
      PrintedNat(i);
    }
  }

  lemma PrintedNumber(n: Number)
    ensures NumberText(n) == NumberAsText(n)
  {
    match n
    case Int(i) => PrintedInt(i);
    case Whole(w) => PrintedInt(w);
    case _ =>
  }

  lemma Rebracket(a: string, b: string, c: string)
    ensures (a + b) + c == a + (b + c)
  {
  }

  /** x, a comma or what else c is, and the rest. */
  lemma Chain(x: string, c: char, y: string, k: string)
    ensures x + Cons(c, y + k) == (x + [c] + y) + k
  {
    Rebracket(x, [c] + y, k);
    Rebracket(x, [c], y);
    Rebracket([c], y, k);
  }

  /** Each printer gives the text of the document, and then what follows. */
  lemma {:induction false} PrintersPrintText(v: Json, go: bool, k: string)
    ensures Print(v, go, k) == Text(v, go) + k
    decreases v
  {
    match v
    case Num(n) => PrintedNumber(n);
    case Str(s) => PrintedString(s, go, k);
    case Arr(items) =>
      if items != [] {
        PrintedItems(items, go, k);
        Enclosed('[', PrintItems(items, go, k), ItemsText(items, go), ']', k);
      }
    case Obj(ms) =>
      if ms != [] {
        PrintedMembers(ms, go, k);
        Enclosed('{', PrintMembers(ms, go, k), MembersText(ms, go), '}', k);
      }
    case _ =>
  }

  lemma Enclosed(c: char, printed: string, inner: string, d: char, k: string)
    requires printed == inner + Cons(d, k)
    ensures Cons(c, printed) == ([c] + inner + [d]) + k
  {
  }

  function PrintItems(items: seq<Json>, go: bool, k: string): string
    requires items != []
  {
    if go then GoPutItems(items, k) else PutItems(items, k)
  }

  function PrintMembers(ms: seq<Member>, go: bool, k: string): string
    requires ms != []
  {
    if go then GoPutMembers(ms, k) else PutMembers(ms, k)
  }

  lemma {:induction false} PrintedItems(items: seq<Json>, go: bool, k: string)
    requires items != []
    ensures PrintItems(items, go, k) == ItemsText(items, go) + Cons(']', k)
    decreases items
  {
    if |items| == 1 {
      PrintersPrintText(items[0], go, Cons(']', k));
    } else {
      PrintedItems(items[1..], go, k);
      var rest := PrintItems(items[1..], go, k);
      PrintersPrintText(items[0], go, Cons(',', rest));
      assert PrintItems(items, go, k) == Print(items[0], go, Cons(',', rest));
      Chain(Text(items[0], go), ',', ItemsText(items[1..], go), Cons(']', k));
    }
  }

  /** A key, its value and what follows them. */
  lemma PrintedMember(m: Member, go: bool, follow: string)
    requires Print(m.value, go, follow) == Text(m.value, go) + follow
    ensures PrintString(m.key, go, Cons(':', Print(m.value, go, follow)))
      == (Quoted(m.key, go) + ":" + Text(m.value, go)) + follow
  {
    PrintedString(m.key, go, Cons(':', Print(m.value, go, follow)));
    Chain(Quoted(m.key, go), ':', Text(m.value, go), follow);
  }

  lemma {:induction false} PrintedMembers(ms: seq<Member>, go: bool, k: string)
    requires ms != []
    ensures PrintMembers(ms, go, k) == MembersText(ms, go) + Cons('}', k)
    decreases ms
  {
    var m := ms[0];
    if |ms| == 1 {
      PrintersPrintText(m.value, go, Cons('}', k));
      PrintedMember(m, go, Cons('}', k));
    } else {
      PrintedMembers(ms[1..], go, k);
      var rest := PrintMembers(ms[1..], go, k);
      PrintersPrintText(m.value, go, Cons(',', rest));
      PrintedMember(m, go, Cons(',', rest));
      Chain(Quoted(m.key, go) + ":" + Text(m.value, go), ',', MembersText(ms[1..], go), Cons('}', k));
    }
  }
}
