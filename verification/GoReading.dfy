/** Go's canonical text can be read back: undoing its five extra escapes gives the control plane's text,
    from which the decoder recovers the document. */
module GoReading {
  import opened Utf8
  import opened Json
  import opened CanonicalText
  import opened CanonicalRoundTrip
  import opened GoCanonical
  import opened JsonText

  /** The character of one of the five escapes. */
  function OfExtra(digits: string): Option<char> {
    if digits == "003c" then Some('<') else if digits == "003e" then Some('>')
    else if digits == "0026" then Some('&')
    else if digits == "2028" then Some('\U{2028}') else if digits == "2029" then Some('\U{2029}')
    else None
  }

  /** The text without the five escapes; all others are kept. */
  function Undo(s: string): string {
    if s == "" then ""
    else if s[0] != '\\' || |s| < 2 then Cons(s[0], Undo(s[1..]))
    else if |s| >= 6 && s[1] == 'u' && OfExtra(s[2..6]).Some? then Cons(OfExtra(s[2..6]).value, Undo(s[6..]))
    else Cons(s[0], Cons(s[1], Undo(s[2..])))
  }

  lemma UndoOne(c: char, k: string)
    requires c != '\\'
    ensures Undo(Cons(c, k)) == Cons(c, Undo(k))
  {
    assert Cons(c, k)[1..] == k;
  }

  lemma UndoEscape(l: char, k: string)
    requires l != 'u'
    ensures Undo(Cons('\\', Cons(l, k))) == Cons('\\', Cons(l, Undo(k)))
  {
    assert Cons('\\', Cons(l, k))[2..] == k;
  }

  lemma UndoExtra(t: string, digits: string, k: string)
    requires OfExtra(digits).Some? && t == "\\u" + digits
    ensures Undo(t + k) == Cons(OfExtra(digits).value, Undo(k))
  {
    var s := t + k;
    assert |digits| == 4 && s[2..6] == digits && s[6..] == k;
  }

  /** An escape of another four digits is kept. */
  lemma UndoOther(rest: string)
    requires |rest| >= 4 && OfExtra(rest[..4]).None?
    ensures Undo(Cons('\\', Cons('u', rest))) == Cons('\\', Cons('u', Undo(rest)))
  {
    var s := Cons('\\', Cons('u', rest));
    assert s[2..] == rest && s[2..6] == rest[..4];
  }

  lemma ControlIsNoExtra(d: char, e: char)
    requires d == '0' || d == '1'
    ensures OfExtra(['0', '0', d, e]).None?
  {
    var s := ['0', '0', d, e];
    assert "003c"[2] == '3' && "003e"[2] == '3' && "0026"[2] == '2' && "2028"[0] == '2' && "2029"[0] == '2';
    assert s[0] == '0' && s[2] == d;
  }

  lemma UndoControl(d: char, e: char, k: string)
    requires (d == '0' || d == '1') && e != '\\'
    ensures Undo(Cons('\\', Cons('u', Cons('0', Cons('0', Cons(d, Cons(e, k)))))))
      == Cons('\\', Cons('u', Cons('0', Cons('0', Cons(d, Cons(e, Undo(k)))))))
  {
    var rest := Cons('0', Cons('0', Cons(d, Cons(e, k))));
    ControlIsNoExtra(d, e);
    assert rest[..4] == ['0', '0', d, e];
    UndoOther(rest);
    UndoOne('0', Cons('0', Cons(d, Cons(e, k))));
    UndoOne('0', Cons(d, Cons(e, k)));
    UndoOne(d, Cons(e, k));
    UndoOne(e, k);
  }

  lemma UndoChar(c: char, k: string)
    ensures Undo(GoPutChar(c, k)) == PutChar(c, Undo(k))
  {
    if IsSpecial(c) {
      UndoSpecial(c, k);
    } else if Short(c).Some? {
      UndoEscape(Short(c).value, k);
    } else if c < ' ' {
      UndoControl(Hex(c as int / 16), Hex(c as int % 16), k);
    } else {
      UndoOne(c, k);
    }
  }

  function Extra(c: char): (digits: string)
    requires IsSpecial(c)
    ensures OfExtra(digits) == Some(c)
  {
    if c == '<' then "003c" else if c == '>' then "003e" else if c == '&' then "0026"
    else if c == '\U{2028}' then "2028" else "2029"
  }

  lemma ExtraEscapes(c: char)
    requires IsSpecial(c)
    ensures Escaped(c, true) == "\\u" + Extra(c)
  {
  }

  lemma UndoSpecial(c: char, k: string)
    requires IsSpecial(c)
    ensures Undo(GoPutChar(c, k)) == PutChar(c, Undo(k))
  {
    SpecialEscapes(c, k);
    ExtraEscapes(c);
    UndoWritten(c, Escaped(c, true), GoPutChar(c, k), k);
    PutAsIs(c, Undo(k));
  }

  lemma UndoWritten(c: char, t: string, s: string, k: string)
    requires IsSpecial(c) && t == "\\u" + Extra(c) && s == t + k
    ensures Undo(s) == Cons(c, Undo(k))
  {
    UndoExtra(t, Extra(c), k);
  }

  lemma PutAsIs(c: char, k: string)
    requires Short(c).None? && c >= ' '
    ensures PutChar(c, k) == Cons(c, k)
  {
  }

  lemma {:induction false} UndoChars(s: string, k: string)
    ensures Undo(GoPutChars(s, k)) == PutChars(s, Undo(k))
  {
    if s != "" {
      UndoChar(s[0], GoPutChars(s[1..], k));
      UndoChars(s[1..], k);
    }
  }

  lemma UndoString(s: string, k: string)
    ensures Undo(GoPutString(s, k)) == PutString(s, Undo(k))
  {
    UndoOne('\"', GoPutChars(s, Cons('\"', k)));
    UndoChars(s, Cons('\"', k));
    UndoOne('\"', k);
  }

  lemma ConsThen(c: char, a: string, b: string)
    ensures Cons(c, a) + b == Cons(c, a + b)
  {
  }

  /** Text without a backslash is kept. */
  lemma {:induction false} UndoPlain(w: string, k: string)
    requires forall i :: 0 <= i < |w| ==> w[i] != '\\'
    ensures Undo(w + k) == w + Undo(k)
  {
    if w == "" {
      assert w + k == k;
    } else {
      var c, rest := w[0], w[1..];
      UndoPlain(rest, k);
      assert w == Cons(c, rest);
      ConsThen(c, rest, k);
      UndoOne(c, rest + k);
      ConsThen(c, rest, Undo(k));
    }
  }

  lemma UndoNumber(n: Number, k: string)
    requires n.Frac? ==> IsFracToken(n.token)
    ensures Undo(NumberText(n) + k) == NumberText(n) + Undo(k)
  {
    UndoPlain(NumberText(n), k);
  }

  lemma {:induction false} UndoValue(v: Json, k: string)
    requires IsCanon(v)
    ensures Undo(GoPutValue(v, k)) == PutValue(v, Undo(k))
    decreases v
  {
    match v
    case Null => UndoPlain("null", k);
    case Bool(b) => UndoPlain(if b then "true" else "false", k);
    case Num(n) => UndoNumber(n, k);
    case Str(s) => UndoString(s, k);
    case Arr(items) =>
      if items == [] {
        UndoOne(']', k);
        UndoOne('[', Cons(']', k));
      } else {
        UndoItems(items, k);
        UndoOne('[', GoPutItems(items, k));
      }
    case Obj(ms) =>
      if ms == [] {
        UndoOne('}', k);
        UndoOne('{', Cons('}', k));
      } else {
        UndoMembers(ms, k);
        UndoOne('{', GoPutMembers(ms, k));
      }
  }

  lemma {:induction false} UndoItems(items: seq<Json>, k: string)
    requires items != [] && forall i :: 0 <= i < |items| ==> IsCanon(items[i])
    ensures Undo(GoPutItems(items, k)) == PutItems(items, Undo(k))
    decreases items
  {
    if |items| == 1 {
      UndoOne(']', k);
      UndoValue(items[0], Cons(']', k));
    } else {
      UndoItems(items[1..], k);
      UndoOne(',', GoPutItems(items[1..], k));
      UndoValue(items[0], Cons(',', GoPutItems(items[1..], k)));
    }
  }

  lemma {:induction false} UndoMembers(ms: seq<Member>, k: string)
    requires ms != [] && forall i :: 0 <= i < |ms| ==> IsCanon(ms[i].value)
    ensures Undo(GoPutMembers(ms, k)) == PutMembers(ms, Undo(k))
    decreases ms
  {
    var f := if |ms| == 1 then Cons('}', k) else Cons(',', GoPutMembers(ms[1..], k));
    if |ms| == 1 {
      UndoOne('}', k);
    } else {
      UndoMembers(ms[1..], k);
      UndoOne(',', GoPutMembers(ms[1..], k));
    }
    UndoValue(ms[0].value, f);
    UndoOne(':', GoPutValue(ms[0].value, f));
    UndoString(ms[0].key, Cons(':', GoPutValue(ms[0].value, f)));
  }

  /** The decoder recovers a normal form from Go's text of it, so different normal forms have different
      texts in Go too. */
  lemma GoTextIsReadable(v: Json, w: Json)
    requires IsCanon(v) && IsCanon(w)
    ensures TakeValue(Undo(GoPutValue(v, ""))) == Some((v, ""))
    ensures GoPutValue(v, "") == GoPutValue(w, "") <==> v == w
  {
    UndoValue(v, "");
    UndoValue(w, "");
    CanonicalRoundTrip.TakeOfPut(v, "");
    CanonicalRoundTrip.TakeOfPut(w, "");
  }
}
