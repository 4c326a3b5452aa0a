/** The decoder inverts the printer on documents in normal form, and accepts nothing else. */
module CanonicalRoundTrip {
  import opened Ascii
  import opened Utf8
  import opened Json
  import opened CanonicalText

  // ---- characters ----

  lemma TakeCharOfPut(c: char, k: string)
    ensures TakeChar(PutChar(c, k)) == Some((c, k))
  {
    var s := PutChar(c, k);
    if Short(c).Some? {
      assert s[2..] == s[1..][1..];
    } else if c < ' ' {
      assert s[6..] == s[1..][1..][1..][1..][1..][1..];
      assert s[2] == s[1..][1] && s[3] == s[1..][1..][1] && s[4] == s[1..][1..][1..][1]
        && s[5] == s[1..][1..][1..][1..][1];
    }
  }

  lemma PutCharOfTake(s: string)
    requires TakeChar(s).Some?
    ensures PutChar(TakeChar(s).value.0, TakeChar(s).value.1) == s
  {
    assert s == Cons(s[0], s[1..]);
    if s[0] == '\\' {
      assert s[1..] == Cons(s[1], s[2..]);
      if s[1] == 'u' {
        PutHexOfTake(s);
      }
    }
  }

  lemma PutHexOfTake(s: string)
    requires TakeChar(s).Some? && s[0] == '\\' && s[1] == 'u'
    ensures PutChar(TakeChar(s).value.0, TakeChar(s).value.1) == s
  {
    var c := TakeChar(s).value.0;
    assert Hex(c as int / 16) == s[4] && Hex(c as int % 16) == s[5];
    assert s == Cons(s[0], Cons(s[1], Cons(s[2], Cons(s[3], Cons(s[4], Cons(s[5], s[6..]))))));
  }

  lemma {:induction false} TakeCharsOfPut(s: string, k: string)
    ensures TakeChars(PutChars(s, Cons('\"', k))) == Some((s, k))
  {
    if s != "" {
      TakeCharOfPut(s[0], PutChars(s[1..], Cons('\"', k)));
      TakeCharsOfPut(s[1..], k);
      assert s == Cons(s[0], s[1..]);
    }
  }

  lemma {:induction false} PutCharsOfTake(s: string)
    requires TakeChars(s).Some?
    ensures PutChars(TakeChars(s).value.0, Cons('\"', TakeChars(s).value.1)) == s
    decreases |s|
  {
    if s[0] == '\"' {
      assert s == [s[0]] + s[1..];
    } else {
      var c := TakeChar(s).value;
      PutCharOfTake(s);
      PutCharsOfTake(c.1);
    }
  }

  lemma TakeStringOfPut(s: string, k: string)
    ensures TakeString(PutString(s, k)) == Some((s, k))
  {
    TakeCharsOfPut(s, k);
  }

  lemma PutStringOfTake(s: string)
    requires TakeString(s).Some?
    ensures PutString(TakeString(s).value.0, TakeString(s).value.1) == s
  {
    PutCharsOfTake(s[1..]);
    assert s == [s[0]] + s[1..];
  }

  // ---- numbers ----

  lemma {:induction false} ValueOfNat(n: nat)
    ensures Value(NatText(n)) == n
  {
    if n < 10 {
      assert NatText(n)[..0] == "";
    } else {
      ValueOfNat(n / 10);
      assert NatText(n)[..|NatText(n)| - 1] == NatText(n / 10);
    }
  }

  lemma OfTokenOfInt(n: int)
    ensures OfToken(IntText(n)) == Some(Int(n))
  {
    var t := IntText(n);
    if n < 0 {
      var m: nat := -n;
      ValueOfNat(m);
      assert t[0] == '-' && t[1..] == NatText(m);
    } else {
      ValueOfNat(n);
      assert t == NatText(n) && t[0] != '-';
    }
  }

  /** What may follow a value: anything but a character that would extend a number. */
  predicate Closes(k: string) {
    k == "" || !IsNumberChar(k[0])
  }

  lemma {:induction false} TokenOfText(t: string, k: string)
    requires Closes(k) && forall i :: 0 <= i < |t| ==> IsNumberChar(t[i])
    ensures TokenLength(t + k) == |t|
  {
    if t == "" {
      assert t + k == k;
    } else {
      assert (t + k)[1..] == t[1..] + k;
      TokenOfText(t[1..], k);
    }
  }

  lemma TakeNumberOfPut(n: Number, k: string)
    requires Closes(k) && (n.Int? || (n.Frac? && IsFracToken(n.token)))
    ensures TakeNumber(NumberText(n) + k) == Some((Num(n), k))
  {
    if n.Int? {
      OfTokenOfInt(n.i);
    }
    TokenOfText(NumberText(n), k);
    LiteralOfPut(NumberText(n), k, Null);
  }

  // ---- values ----

  lemma {:induction false} TakeOfPut(v: Json, k: string)
    requires IsCanon(v) && Closes(k)
    ensures TakeValue(PutValue(v, k)) == Some((v, k))
    decreases v
  {
    if v.Arr? {
      if v.items != [] {
        TakeItemsOfPut(v.items, k);
      }
      TakeArrayOfPut(v.items, k);
    } else if v.Obj? {
      if v.members != [] {
        TakeMembersOfPut(v.members, k);
      }
      TakeObjectOfPut(v.members, k);
    } else {
      TakeLeafOfPut(v, k);
    }
  }

  lemma TakeLeafOfPut(v: Json, k: string)
    requires !v.Arr? && !v.Obj? && IsCanon(v) && Closes(k)
    ensures TakeValue(PutValue(v, k)) == Some((v, k))
  {
    match v
    case Null => TakeWordOfPut("null", k, Null);
    case Bool(b) => TakeWordOfPut(if b then "true" else "false", k, v);
    case Num(n) =>
      TakeNumberOfPut(n, k);
    case Str(s) =>
      TakeStringOfPut(s, k);
  }

  lemma TakeWordOfPut(word: string, k: string, v: Json)
    requires (word == "null" && v == Null) || (word == "true" && v == Bool(true))
      || (word == "false" && v == Bool(false))
    ensures TakeValue(word + k) == Some((v, k))
  {
    LiteralOfPut(word, k, v);
  }

  lemma DispatchBracket(rest: string)
    ensures TakeValue(Cons('[', rest)) == TakeArray(rest)
    ensures TakeValue(Cons('{', rest)) == TakeObject(rest)
  {
  }

  lemma TakeArrayOfPut(items: seq<Json>, k: string)
    requires forall i :: 0 <= i < |items| ==> IsCanon(items[i])
    requires items != [] ==> TakeItems(PutItems(items, k)) == Some((items, k))
    ensures TakeValue(PutValue(Arr(items), k)) == Some((Arr(items), k))
  {
    if items == [] {
      DispatchBracket(Cons(']', k));
    } else {
      var body := PutItems(items, k);
      DispatchBracket(body);
    }
  }

  lemma TakeObjectOfPut(ms: seq<Member>, k: string)
    requires ms != [] ==> TakeMembers(PutMembers(ms, k)) == Some((ms, k))
    ensures TakeValue(PutValue(Obj(ms), k)) == Some((Obj(ms), k))
  {
    if ms == [] {
      DispatchBracket(Cons('}', k));
    } else {
      var body := PutMembers(ms, k);
      DispatchBracket(body);
    }
  }

  lemma LiteralOfPut(word: string, k: string, v: Json)
    requires word != ""
    ensures |word + k| >= |word| && (word + k)[..|word|] == word && (word + k)[|word|..] == k
    ensures (word + k)[0] == word[0]
  {
  }

  lemma {:induction false} TakeItemsOfPut(items: seq<Json>, k: string)
    requires items != [] && forall i :: 0 <= i < |items| ==> IsCanon(items[i])
    ensures TakeItems(PutItems(items, k)) == Some((items, k))
    decreases items
  {
    if |items| == 1 {
      TakeOfPut(items[0], Cons(']', k));
      assert items == [items[0]];
    } else {
      TakeOfPut(items[0], Cons(',', PutItems(items[1..], k)));
      TakeItemsOfPut(items[1..], k);
      assert items == Cons(items[0], items[1..]);
    }
  }

  lemma {:induction false} TakeMembersOfPut(ms: seq<Member>, k: string)
    requires ms != [] && SortedKeys(ms) && forall i :: 0 <= i < |ms| ==> IsCanon(ms[i].value)
    ensures TakeMembers(PutMembers(ms, k)) == Some((ms, k))
    decreases ms
  {
    var follow := if |ms| == 1 then Cons('}', k) else Cons(',', PutMembers(ms[1..], k));
    TakeStringOfPut(ms[0].key, Cons(':', PutValue(ms[0].value, follow)));
    TakeOfPut(ms[0].value, follow);
    if |ms| == 1 {
      assert ms == [ms[0]];
    } else {
      TakeMembersOfPut(ms[1..], k);
      assert ms == Cons(ms[0], ms[1..]);
    }
  }

  // ---- soundness ----

  lemma LiteralOfTake(s: string, word: string)
    requires |s| >= |word| && s[..|word|] == word
    ensures word + s[|word|..] == s
  {
  }

  lemma PutOfTakeNumber(s: string)
    requires TakeNumber(s).Some?
    ensures TakeNumber(s).value.0.Num? && IsCanon(TakeNumber(s).value.0)
    ensures NumberText(TakeNumber(s).value.0.n) + TakeNumber(s).value.1 == s
  {
    var l := TokenLength(s);
    assert s == s[..l] + s[l..];
  }

  lemma {:induction false} PutOfTake(s: string)
    requires TakeValue(s).Some?
    ensures IsCanon(TakeValue(s).value.0)
    ensures PutValue(TakeValue(s).value.0, TakeValue(s).value.1) == s
    decreases |s|, 1
  {
    assert s == Cons(s[0], s[1..]);
    if s[0] == '-' || '0' <= s[0] <= '9' {
      PutOfTakeNumber(s);
    } else if s[0] == 'n' {
      LiteralOfTake(s, "null");
    } else if s[0] == 't' {
      LiteralOfTake(s, "true");
    } else if s[0] == 'f' {
      LiteralOfTake(s, "false");
    } else if s[0] == '\"' {
      PutStringOfTake(s);
    } else if s[0] == '[' {
      PutOfTakeArray(s[1..]);
    } else if s[0] == '{' {
      PutOfTakeObject(s[1..]);
    }
  }

  lemma {:induction false} PutOfTakeArray(s: string)
    requires TakeArray(s).Some?
    ensures TakeArray(s).value.0.Arr? && IsCanon(TakeArray(s).value.0)
    ensures PutValue(TakeArray(s).value.0, TakeArray(s).value.1) == Cons('[', s)
    decreases |s|, 3
  {
    if s[0] == ']' {
      assert s == Cons(s[0], s[1..]);
    } else {
      PutOfTakeItems(s);
    }
  }

  lemma {:induction false} PutOfTakeObject(s: string)
    requires TakeObject(s).Some?
    ensures TakeObject(s).value.0.Obj? && IsCanon(TakeObject(s).value.0)
    ensures PutValue(TakeObject(s).value.0, TakeObject(s).value.1) == Cons('{', s)
    decreases |s|, 3
  {
    if s[0] == '}' {
      assert s == Cons(s[0], s[1..]);
    } else {
      PutOfTakeMembers(s);
    }
  }

  lemma {:induction false} PutOfTakeItems(s: string)
    requires TakeItems(s).Some?
    ensures forall i :: 0 <= i < |TakeItems(s).value.0| ==> IsCanon(TakeItems(s).value.0[i])
    ensures PutItems(TakeItems(s).value.0, TakeItems(s).value.1) == s
    decreases |s|, 2
  {
    PutOfTake(s);
    var (x, rest) := TakeValue(s).value;
    assert rest == Cons(rest[0], rest[1..]);
    if rest[0] == ',' {
      PutOfTakeItems(rest[1..]);
      var items := TakeItems(s).value.0;
      assert items[1..] == TakeItems(rest[1..]).value.0;
    }
  }

  lemma {:induction false} PutOfTakeMembers(s: string)
    requires TakeMembers(s).Some?
    ensures SortedKeys(TakeMembers(s).value.0)
    ensures forall i :: 0 <= i < |TakeMembers(s).value.0| ==> IsCanon(TakeMembers(s).value.0[i].value)
    ensures PutMembers(TakeMembers(s).value.0, TakeMembers(s).value.1) == s
    decreases |s|, 2
  {
    var rest := PutOfTakeMember(s);
    if rest[0] == ',' {
      PutOfTakeMembers(rest[1..]);
      SortedCons(TakeMembers(s).value.0, TakeMembers(rest[1..]).value.0);
    }
  }

  /** The first member, and what follows it. */
  lemma {:induction false} PutOfTakeMember(s: string) returns (rest: string)
    requires TakeMembers(s).Some?
    ensures rest != "" && |rest| < |s| && rest == TakeValue(TakeString(s).value.1[1..]).value.1
    ensures var m := TakeMembers(s).value.0[0];
      IsCanon(m.value) && PutString(m.key, Cons(':', PutValue(m.value, rest))) == s
    ensures rest[0] == ',' ==> rest == Cons(',', rest[1..]) && TakeMembers(rest[1..]).Some?
    ensures rest[0] == ',' ==> TakeMembers(s).value.0[1..] == TakeMembers(rest[1..]).value.0
    ensures rest[0] == ',' ==> TakeMembers(s).value.1 == TakeMembers(rest[1..]).value.1
    ensures rest[0] == ',' ==> Less(TakeMembers(s).value.0[0].key, TakeMembers(rest[1..]).value.0[0].key)
    ensures rest[0] != ',' ==> rest == Cons('}', TakeMembers(s).value.1) && |TakeMembers(s).value.0| == 1
    decreases |s|, 1
  {
    PutStringOfTake(s);
    var after := TakeString(s).value.1;
    assert after == Cons(after[0], after[1..]);
    PutOfTake(after[1..]);
    rest := TakeValue(after[1..]).value.1;
    assert rest == Cons(rest[0], rest[1..]);
    if rest[0] == ',' {
      ConsTail(TakeMembers(s).value.0[0], TakeMembers(rest[1..]).value.0);
    }
  }

  lemma ConsTail(m: Member, tail: seq<Member>)
    ensures Cons(m, tail)[1..] == tail && |Cons(m, tail)| == |tail| + 1 && Cons(m, tail)[0] == m
  {
  }

  lemma SortedCons(ms: seq<Member>, tail: seq<Member>)
    requires |ms| == |tail| + 1 && ms[1..] == tail && SortedKeys(tail)
    requires tail != [] ==> Less(ms[0].key, tail[0].key)
    ensures SortedKeys(ms)
  {
    forall j | 0 <= j < |tail| ensures Less(ms[0].key, tail[j].key) {
      LessIsStrict(ms[0].key, tail[0].key, tail[j].key);
    }
  }

  // ---- the main results ----

  /** The decoder recovers the normal form of any acceptable document from its canonical bytes. */
  lemma DecodedOfCanonical(v: Json)
    requires WellFormed(v) && Finite(v)
    ensures CanonicalJson(v).Some? && Decoded(CanonicalJson(v).value) == Some(Canon(v))
  {
    CanonIsCanon(v);
    DecodeOfEncode(Dumps(Canon(v)));
    TakeOfPut(Canon(v), "");
  }

  /** An integral float within 10^15 reads back as the integer of its value. */
  lemma IntegralFloatsAreIntegers(w: int)
    requires -1_000_000_000_000_000 <= w <= 1_000_000_000_000_000
    ensures CanonicalJson(Num(Whole(w))).Some?
    ensures Decoded(CanonicalJson(Num(Whole(w))).value) == Some(Num(Int(w)))
  {
    DecodedOfCanonical(Num(Whole(w)));
  }

  /** Larger ones are no whole numbers to either encoder. */
  lemma WholeWithinLimit(w: int)
    ensures WellFormed(Num(Whole(w))) <==> -1_000_000_000_000_000 <= w <= 1_000_000_000_000_000
  {
  }

  /** It accepts only canonical bytes, and printing what it returns gives them back. */
  lemma CanonicalOfDecoded(b: Bytes)
    requires Decoded(b).Some?
    ensures IsCanon(Decoded(b).value) && Encode(Dumps(Decoded(b).value)) == b
  {
    EncodeOfDecode(b);
    PutOfTake(Decode(b).value);
  }

  /** Two documents have the same canonical bytes exactly when they are equal up to member order. */
  lemma BytesDecide(v: Json, w: Json)
    requires WellFormed(v) && Finite(v) && WellFormed(w) && Finite(w)
    ensures CanonicalJson(v) == CanonicalJson(w) <==> Same(v, w)
  {
    DecodedOfCanonical(v);
    DecodedOfCanonical(w);
    CanonDecides(v, w);
  }
}
