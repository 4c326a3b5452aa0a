/** The gateway's canonical encoder, which appends to a shared buffer, against the control plane's. */
module GoCanonical {
  import opened Ascii
  import opened Utf8
  import opened Json
  import opened CanonicalText

  // ---- appending ----

  lemma {:induction false} RestAppends(r: int, w: nat, k: Bytes)
    requires w <= 3 && 0 <= r < P(w)
    ensures PutRest(r, w, k) == PutRest(r, w, []) + k
  {
    if w > 0 {
      DivMod(r, w);
      RestAppends(r % P(w - 1), w - 1, k);
    }
  }

  lemma PointAppends(c: char, k: Bytes)
    ensures PutPoint(c, k) == PutPoint(c, []) + k
  {
    LeadFits(c as int);
    RestAppends(c as int % P(Width(c as int)), Width(c as int), k);
  }

  lemma {:induction false} EncodeAppends(a: string, b: string)
    ensures Encode(a + b) == Encode(a) + Encode(b)
  {
    if a == "" {
      assert a + b == b;
    } else {
      assert (a + b)[1..] == a[1..] + b;
      EncodeAppends(a[1..], b);
      PointAppends(a[0], Encode(a[1..]) + Encode(b));
      PointAppends(a[0], Encode(a[1..]));
    }
  }

  // ---- what json.Marshal does to a string ----

  /** Go escapes these in addition, for HTML and for JavaScript. */
  predicate IsSpecial(c: char) {
    c == '<' || c == '>' || c == '&' || c as int == 0x2028 || c as int == 0x2029
  }

  function GoPutChar(c: char, k: string): string {
    if c as int == 0x2028 then "\\u2028" + k
    else if c as int == 0x2029 then "\\u2029" + k
    else if IsSpecial(c) then
      Cons('\\', Cons('u', Cons('0', Cons('0', Cons(Hex(c as int / 16), Cons(Hex(c as int % 16), k))))))
    else PutChar(c, k)
  }

  function GoPutChars(s: string, k: string): string {
    if s == "" then k else GoPutChar(s[0], GoPutChars(s[1..], k))
  }

  function GoPutString(s: string, k: string): string {
    Cons('\"', GoPutChars(s, Cons('\"', k)))
  }

  predicate Plain(s: string) {
    forall i :: 0 <= i < |s| ==> !IsSpecial(s[i])
  }

  lemma GoEscapesSpecials(c: char, k: string, l: string)
    ensures GoPutChar(c, k) == PutChar(c, l) <==> !IsSpecial(c) && k == l
  {
    if IsSpecial(c) {
      assert GoPutChar(c, k)[0] == '\\' && PutChar(c, l)[0] == c;
    } else {
      PutCharPeels(c, k, l);
    }
  }

  lemma PutCharPeels(c: char, k: string, l: string)
    ensures PutChar(c, k) == PutChar(c, l) <==> k == l
  {
    var x, y := PutChar(c, k), PutChar(c, l);
    if Short(c).Some? {
      assert x[1..][1..] == k && y[1..][1..] == l;
    } else if c < ' ' {
      assert x[1..][1..][1..][1..][1..][1..] == k && y[1..][1..][1..][1..][1..][1..] == l;
    } else {
      assert x[1..] == k && y[1..] == l;
    }
  }

  lemma {:induction false} GoCharsAgree(s: string, k: string, l: string)
    ensures GoPutChars(s, k) == PutChars(s, l) <==> Plain(s) && k == l
  {
    if s != "" {
      GoEscapesSpecials(s[0], GoPutChars(s[1..], k), PutChars(s[1..], l));
      GoCharsAgree(s[1..], k, l);
      assert Plain(s) <==> !IsSpecial(s[0]) && Plain(s[1..]) by {
        assert forall i :: 1 <= i < |s| ==> s[i] == s[1..][i - 1];
        assert forall i :: 0 <= i < |s[1..]| ==> s[1..][i] == s[i + 1];
      }
    }
  }

  lemma GoStringAgrees(s: string, k: string, l: string)
    ensures GoPutString(s, k) == PutString(s, l) <==> Plain(s) && k == l
  {
    var x, y := GoPutChars(s, Cons('\"', k)), PutChars(s, Cons('\"', l));
    assert Cons('\"', x)[1..] == x && Cons('\"', y)[1..] == y;
    assert Cons('\"', k)[1..] == k && Cons('\"', l)[1..] == l;
    GoCharsAgree(s, Cons('\"', k), Cons('\"', l));
  }

  // ---- values in normal form, printed Go's way ----

  function GoPutValue(v: Json, k: string): string
    decreases v
  {
    match v
    case Null => "null" + k
    case Bool(b) => (if b then "true" else "false") + k
    case Num(n) => NumberText(n) + k
    case Str(s) => GoPutString(s, k)
    case Arr(items) => Cons('[', if items == [] then Cons(']', k) else GoPutItems(items, k))
    case Obj(ms) => Cons('{', if ms == [] then Cons('}', k) else GoPutMembers(ms, k))
  }

  function GoPutItems(items: seq<Json>, k: string): string
    requires items != []
    decreases items
  {
    GoPutValue(items[0], if |items| == 1 then Cons(']', k) else Cons(',', GoPutItems(items[1..], k)))
  }

  function GoPutMembers(ms: seq<Member>, k: string): string
    requires ms != []
    decreases ms
  {
    GoPutString(ms[0].key, Cons(':',
      GoPutValue(ms[0].value, if |ms| == 1 then Cons('}', k) else Cons(',', GoPutMembers(ms[1..], k)))))
  }

  /** No string or key of the document holds a character that only Go escapes. */
  predicate PlainJson(v: Json) {
    match v
    case Str(s) => Plain(s)
    case Arr(items) => forall i :: 0 <= i < |items| ==> PlainJson(items[i])
    case Obj(ms) => forall i :: 0 <= i < |ms| ==> Plain(ms[i].key) && PlainJson(ms[i].value)
    case _ => true
  }

  /** The two languages print a normal form alike exactly when it is plain. */
  lemma {:induction false} GoAgrees(v: Json, k: string, l: string)
    ensures GoPutValue(v, k) == PutValue(v, l) <==> PlainJson(v) && k == l
    decreases v
  {
    match v
    case Str(s) => GoStringAgrees(s, k, l);
    case Arr(items) =>
      ConsPeels('[', if items == [] then Cons(']', k) else GoPutItems(items, k),
                     if items == [] then Cons(']', l) else PutItems(items, l));
      if items == [] {
        ConsPeels(']', k, l);
      } else {
        GoItemsAgree(items, k, l);
      }
    case Obj(ms) =>
      ConsPeels('{', if ms == [] then Cons('}', k) else GoPutMembers(ms, k),
                     if ms == [] then Cons('}', l) else PutMembers(ms, l));
      if ms == [] {
        ConsPeels('}', k, l);
      } else {
        GoMembersAgree(ms, k, l);
      }
    case Null => WordPeels("null", k, l);
    case Bool(b) => WordPeels(if b then "true" else "false", k, l);
    case Num(n) => WordPeels(NumberText(n), k, l);
  }

  lemma ConsPeels(c: char, k: string, l: string)
    ensures Cons(c, k) == Cons(c, l) <==> k == l
  {
    assert Cons(c, k)[1..] == k && Cons(c, l)[1..] == l;
  }

  lemma WordPeels(w: string, k: string, l: string)
    ensures w + k == w + l <==> k == l
  {
    assert (w + k)[|w|..] == k && (w + l)[|w|..] == l;
  }

  lemma {:induction false} GoItemsAgree(items: seq<Json>, k: string, l: string)
    requires items != []
    ensures GoPutItems(items, k) == PutItems(items, l) <==>
      (forall i :: 0 <= i < |items| ==> PlainJson(items[i])) && k == l
    decreases items
  {
    if |items| == 1 {
      GoAgrees(items[0], Cons(']', k), Cons(']', l));
      ConsPeels(']', k, l);
    } else {
      var x, y := GoPutItems(items[1..], k), PutItems(items[1..], l);
      GoAgrees(items[0], Cons(',', x), Cons(',', y));
      ConsPeels(',', x, y);
      GoItemsAgree(items[1..], k, l);
      assert forall i :: 1 <= i < |items| ==> items[i] == items[1..][i - 1];
      assert forall i :: 0 <= i < |items[1..]| ==> items[1..][i] == items[i + 1];
    }
  }

  predicate PlainMembers(ms: seq<Member>) {
    forall i :: 0 <= i < |ms| ==> Plain(ms[i].key) && PlainJson(ms[i].value)
  }

  lemma {:induction false} GoMembersAgree(ms: seq<Member>, k: string, l: string)
    requires ms != []
    ensures GoPutMembers(ms, k) == PutMembers(ms, l) <==> PlainMembers(ms) && k == l
    decreases ms
  {
    var f, g := if |ms| == 1 then Cons('}', k) else Cons(',', GoPutMembers(ms[1..], k)),
                if |ms| == 1 then Cons('}', l) else Cons(',', PutMembers(ms[1..], l));
    var x, y := GoPutValue(ms[0].value, f), PutValue(ms[0].value, g);
    GoStringAgrees(ms[0].key, Cons(':', x), Cons(':', y));
    ConsPeels(':', x, y);
    GoAgrees(ms[0].value, f, g);
    if |ms| == 1 {
      ConsPeels('}', k, l);
    } else {
      ConsPeels(',', GoPutMembers(ms[1..], k), PutMembers(ms[1..], l));
      GoMembersAgree(ms[1..], k, l);
      assert forall i :: 1 <= i < |ms| ==> ms[i] == ms[1..][i - 1];
      assert forall i :: 0 <= i < |ms[1..]| ==> ms[1..][i] == ms[i + 1];
    }
  }
}
