/** The Go encoders as they run: one shared buffer, written left to right. Each writer is told, as a
    ghost argument, the text k that its callers will still write after it. */
module GoWriter {
  import opened Ascii
  import opened Utf8
  import opened Json
  import opened CanonicalText
  import opened GoCanonical

  lemma AppendAssociates(a: Bytes, b: Bytes, c: Bytes)
    ensures a + (b + c) == (a + b) + c
  {
  }

  class Buffer {
    var data: Bytes

    constructor ()
      ensures data == []
    {
      data := [];
    }

    method WriteString(s: string, ghost k: string)
      modifies this
      ensures data == old(data) + Encode(s)
      ensures old(data) + Encode(s + k) == data + Encode(k)
    {
      EncodeAppends(s, k);
      AppendAssociates(data, Encode(s), Encode(k));
      data := data + Encode(s);
    }

    method WriteByte(c: char, ghost k: string)
      modifies this
      ensures old(data) + Encode(Cons(c, k)) == data + Encode(k)
    {
      WriteString([c], k);
    }
  }

  lemma GoCharAppends(c: char, k: string)
    ensures GoPutChar(c, k) == GoPutChar(c, "") + k
  {
    if c as int == 0x2028 || c as int == 0x2029 {
      assert "\\u2028" + "" == "\\u2028" && "\\u2029" + "" == "\\u2029";
    } else if IsSpecial(c) || (Short(c).None? && c < ' ') {
      var a, b := Hex(c as int / 16), Hex(c as int % 16);
      assert Cons('\\', Cons('u', Cons('0', Cons('0', Cons(a, Cons(b, k)))))) == ['\\', 'u', '0', '0', a, b] + k;
      assert Cons('\\', Cons('u', Cons('0', Cons('0', Cons(a, Cons(b, "")))))) == ['\\', 'u', '0', '0', a, b];
    }
  }

  /** json.Marshal of a string, rune by rune. */
  method WriteQuoted(buf: Buffer, s: string, ghost k: string)
    modifies buf
    ensures old(buf.data) + Encode(GoPutString(s, k)) == buf.data + Encode(k)
  {
    ghost var follow := Cons('\"', k);
    buf.WriteByte('\"', GoPutChars(s, follow));
    assert s[0..] == s;
    for i := 0 to |s|
      invariant old(buf.data) + Encode(GoPutString(s, k)) == buf.data + Encode(GoPutChars(s[i..], follow))
    {
      GoCharAppends(s[i], GoPutChars(s[i + 1..], follow));
      assert s[i..][1..] == s[i + 1..];
      buf.WriteString(GoPutChar(s[i], ""), GoPutChars(s[i + 1..], follow));
    }
    buf.WriteByte('\"', k);
  }

  // ---- keys ----

  function InsertKey(key: string, keys: seq<string>): seq<string> {
    if keys == [] || BytesLess(Encode(key), Encode(keys[0])) then Cons(key, keys)
      else Cons(keys[0], InsertKey(key, keys[1..]))
  }

  /** sort.Strings: by bytes. */
  function SortKeys(keys: seq<string>): seq<string> {
    if keys == [] then [] else InsertKey(keys[0], SortKeys(keys[1..]))
  }

  function KeysOf(ms: seq<Member>): (keys: seq<string>)
    ensures |keys| == |ms| && forall i :: 0 <= i < |ms| ==> keys[i] == ms[i].key
  {
    seq(|ms|, i requires 0 <= i < |ms| => ms[i].key)
  }

  lemma {:induction false} InsertKeyMatches(m: Member, ms: seq<Member>)
    ensures InsertKey(m.key, KeysOf(ms)) == KeysOf(InsertMember(m, ms))
  {
    if ms != [] {
      ByteOrderIsCodePointOrder(m.key, ms[0].key);
      assert KeysOf(ms)[1..] == KeysOf(ms[1..]);
      if !Less(m.key, ms[0].key) {
        InsertKeyMatches(m, ms[1..]);
      }
    }
  }

  /** Sorting the keys by bytes gives the keys in the order the normal form has them. */
  lemma {:induction false} SortKeysMatches(ms: seq<Member>)
    ensures SortKeys(KeysOf(ms)) == KeysOf(SortMembers(ms))
  {
    if ms != [] {
      assert KeysOf(ms)[1..] == KeysOf(ms[1..]);
      SortKeysMatches(ms[1..]);
      InsertKeyMatches(ms[0], SortMembers(ms[1..]));
    }
  }

  /** The value written under the i-th sorted key is the normal form of the map's value for it. */
  lemma SortedValue(ms: seq<Member>, i: nat) returns (j: nat)
    requires DistinctKeys(ms) && i < |SortMembers(CanonMembers(ms))|
    ensures j < |ms| && ms[j].key == SortMembers(CanonMembers(ms))[i].key
    ensures Find(ms, ms[j].key) == Some(ms[j].value)
    ensures Canon(ms[j].value) == SortMembers(CanonMembers(ms))[i].value
  {
    var cs, sorted := CanonMembers(ms), SortMembers(CanonMembers(ms));
    SortMembersSorts(cs);
    assert sorted[i] in cs;
    j :| 0 <= j < |cs| && cs[j] == sorted[i];
    FindAt(ms, j);
  }

  // ---- values ----

  /** What is left to write of an array from the i-th item on. */
  ghost function ItemsLeft(items: seq<Json>, i: nat, k: string): string
    requires i <= |items|
  {
    if i == |items| then Cons(']', k)
    else if i == 0 then GoPutItems(items, k)
    else Cons(',', GoPutItems(items[i..], k))
  }

  /** What is left to write of an object from the i-th member on. */
  ghost function MembersLeft(ms: seq<Member>, i: nat, k: string): string
    requires i <= |ms|
  {
    if i == |ms| then Cons('}', k)
    else if i == 0 then GoPutMembers(ms, k)
    else Cons(',', GoPutMembers(ms[i..], k))
  }

  lemma NextMember(ms: seq<Member>, i: nat, k: string)
    requires i < |ms|
    ensures GoPutMembers(ms[i..], k) ==
      GoPutString(ms[i].key, Cons(':', GoPutValue(ms[i].value, MembersLeft(ms, i + 1, k))))
    ensures i == 0 ==> GoPutMembers(ms[i..], k) == MembersLeft(ms, 0, k)
  {
    assert ms[i..][0] == ms[i] && ms[i..][1..] == ms[i + 1..];
    assert ms[0..] == ms;
  }

  /** What the encoder is given: distinct keys, and no float that would print through the language's
      own float formatting other than as the given token. */
  ghost predicate Portable(v: Json) {
    WellFormed(v) && Finite(v) && Bounded(v)
  }

  ghost predicate Bounded(v: Json) {
    match v
    case Num(n) => n.Int? ==> -LIMIT <= n.i <= LIMIT
    case Arr(items) => forall i :: 0 <= i < |items| ==> Bounded(items[i])
    case Obj(ms) => forall i :: 0 <= i < |ms| ==> Bounded(ms[i].value)
    case _ => true
  }

  method WriteCanonical(buf: Buffer, v: Json, ghost k: string)
    requires Portable(v)
    modifies buf
    ensures old(buf.data) + Encode(GoPutValue(Canon(v), k)) == buf.data + Encode(k)
    decreases v, 1
  {
    match v {
      case Null => buf.WriteString("null", k);
      case Bool(b) => buf.WriteString(if b then "true" else "false", k);
      case Str(s) => WriteQuoted(buf, s, k);
      case Num(n) => buf.WriteString(NumberText(n), k);
      case Arr(items) => WriteArray(buf, items, k);
      case Obj(ms) => WriteObject(buf, ms, k);
    }
  }

  method WriteArray(buf: Buffer, items: seq<Json>, ghost k: string)
    requires Portable(Arr(items))
    modifies buf
    ensures old(buf.data) + Encode(GoPutValue(Canon(Arr(items)), k)) == buf.data + Encode(k)
    decreases items, 0
  {
    ghost var cs := CanonItems(items);
    buf.WriteByte('[', ItemsLeft(cs, 0, k));
    for i := 0 to |items|
      invariant old(buf.data) + Encode(GoPutValue(Arr(cs), k)) == buf.data + Encode(ItemsLeft(cs, i, k))
    {
      assert cs[i..][0] == cs[i] && cs[i..][1..] == cs[i + 1..];
      if i > 0 {
        buf.WriteByte(',', GoPutItems(cs[i..], k));
      }
      WriteCanonical(buf, items[i], ItemsLeft(cs, i + 1, k));
    }
    buf.WriteByte(']', k);
  }

  method WriteObject(buf: Buffer, ms: seq<Member>, ghost k: string)
    requires Portable(Obj(ms))
    modifies buf
    ensures old(buf.data) + Encode(GoPutValue(Canon(Obj(ms)), k)) == buf.data + Encode(k)
    decreases ms, 1
  {
    var keys := SortKeys(KeysOf(ms));
    ghost var cs := SortMembers(CanonMembers(ms));
    assert KeysOf(ms) == KeysOf(CanonMembers(ms));
    SortKeysMatches(CanonMembers(ms));
    ghost var whole := buf.data + Encode(GoPutValue(Obj(cs), k));
    buf.WriteByte('{', MembersLeft(cs, 0, k));
    for i := 0 to |keys|
      invariant whole == buf.data + Encode(MembersLeft(cs, i, k))
    {
      WriteMember(buf, ms, keys[i], i, k);
    }
    buf.WriteByte('}', k);
  }

  /** A comma unless it is the first, one key, a colon and the value the map holds for the key. */
  method WriteMember(buf: Buffer, ms: seq<Member>, key: string, i: nat, ghost k: string)
    requires Portable(Obj(ms)) && i < |SortMembers(CanonMembers(ms))|
    requires key == SortMembers(CanonMembers(ms))[i].key
    modifies buf
    ensures old(buf.data) + Encode(MembersLeft(SortMembers(CanonMembers(ms)), i, k))
         == buf.data + Encode(MembersLeft(SortMembers(CanonMembers(ms)), i + 1, k))
    decreases ms, 0
  {
    ghost var cs := SortMembers(CanonMembers(ms));
    ghost var follow := MembersLeft(cs, i + 1, k);
    ghost var j := SortedValue(ms, i);
    NextMember(cs, i, k);
    if i > 0 {
      buf.WriteByte(',', GoPutMembers(cs[i..], k));
    }
    WriteQuoted(buf, key, Cons(':', GoPutValue(cs[i].value, follow)));
    buf.WriteByte(':', GoPutValue(cs[i].value, follow));
    WriteCanonical(buf, Find(ms, key).value, follow);
  }

  /** The gateway's CanonicalJSON: its own printing of the same normal form. */
  method CanonicalJSON(v: Json) returns (b: Bytes)
    requires Portable(v)
    ensures b == Encode(GoPutValue(Canon(v), ""))
  {
    var buf := new Buffer();
    WriteCanonical(buf, v, "");
    b := buf.data;
    assert [] + Encode(GoPutValue(Canon(v), "")) == Encode(GoPutValue(Canon(v), ""));
    assert b + Encode("") == b;
  }

  /** The normal form holds the same strings and keys. */
  lemma {:induction false} CanonKeepsPlain(v: Json)
    requires WellFormed(v)
    ensures PlainJson(Canon(v)) <==> PlainJson(v)
  {
    match v
    case Arr(items) =>
      var cs := CanonItems(items);
      forall i | 0 <= i < |items| ensures PlainJson(cs[i]) <==> PlainJson(items[i]) {
        CanonKeepsPlain(items[i]);
      }
    case Obj(ms) =>
      var cs := CanonMembers(ms);
      forall i | 0 <= i < |ms| ensures PlainJson(cs[i].value) <==> PlainJson(ms[i].value) {
        CanonKeepsPlain(ms[i].value);
      }
      SortMembersSorts(cs);
      PlainMembersOfSame(cs, SortMembers(cs));
    case _ =>
  }

  lemma PlainMembersOfSame(a: seq<Member>, b: seq<Member>)
    requires forall x :: x in b <==> x in a
    ensures PlainJson(Obj(a)) <==> PlainJson(Obj(b))
  {
    if PlainJson(Obj(a)) {
      forall i | 0 <= i < |b| ensures Plain(b[i].key) && PlainJson(b[i].value) {
        assert b[i] in a;
      }
    }
    if PlainJson(Obj(b)) {
      forall i | 0 <= i < |a| ensures Plain(a[i].key) && PlainJson(a[i].value) {
        assert a[i] in b;
      }
    }
  }

  /** Both languages give the same bytes exactly when no string or key holds a character that only
      Go escapes. */
  lemma LanguagesAgree(v: Json)
    requires Portable(v)
    ensures CanonicalJson(v) == Some(Encode(GoPutValue(Canon(v), ""))) <==> PlainJson(v)
  {
    CanonKeepsPlain(v);
    GoAgrees(Canon(v), "", "");
    DecodeOfEncode(Dumps(Canon(v)));
    DecodeOfEncode(GoPutValue(Canon(v), ""));
  }

  /** One document on which they do not: the string "<". */
  lemma LessThanIsWrittenDifferently()
    ensures Portable(Str("<")) && CanonicalJson(Str("<")) != Some(Encode(GoPutValue(Canon(Str("<")), "")))
  {
    LanguagesAgree(Str("<"));
    assert !Plain("<");
  }
}
