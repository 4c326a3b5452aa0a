/** JSON documents as the control plane holds them, and the normal form that is hashed and signed. */
module Json {
  import opened Utf8

  /** Integers, floats with an integral value, other finite floats by the token they print as, and
      NaN or an infinity. */
  datatype Number = Int(i: int) | Whole(w: int) | Frac(token: string) | NonFinite

  datatype Json =
    | Null
    | Bool(b: bool)
    | Num(n: Number)
    | Str(s: string)
    | Arr(items: seq<Json>)
    | Obj(members: seq<Member>)

  datatype Member = Member(key: string, value: Json)

  const LIMIT := 1_000_000_000_000_000

  /** No NaN or infinity anywhere: what canonical_json accepts. */
  predicate Finite(v: Json) {
    match v
    case Num(n) => n != NonFinite
    case Arr(items) => forall i :: 0 <= i < |items| ==> Finite(items[i])
    case Obj(ms) => forall i :: 0 <= i < |ms| ==> Finite(ms[i].value)
    case _ => true
  }

  /** Keys of an object are distinct, and a float is Whole exactly when it is integral and within the
      limit (larger ones print with an exponent or a fraction, so they are tokens). */
  predicate WellFormed(v: Json) {
    match v
    case Num(n) => (n.Whole? ==> -LIMIT <= n.w <= LIMIT) && (n.Frac? ==> IsFracToken(n.token))
    case Arr(items) => forall i :: 0 <= i < |items| ==> WellFormed(items[i])
    case Obj(ms) => DistinctKeys(ms) && forall i :: 0 <= i < |ms| ==> WellFormed(ms[i].value)
    case _ => true
  }

  predicate DistinctKeys(ms: seq<Member>) {
    forall i, j :: 0 <= i < j < |ms| ==> ms[i].key != ms[j].key
  }

  predicate IsNumberChar(c: char) {
    '0' <= c <= '9' || c == '-' || c == '+' || IsFracChar(c)
  }

  predicate IsFracChar(c: char) {
    c == '.' || c == 'e' || c == 'E'
  }

  predicate IsFracToken(t: string) {
    && t != "" && (t[0] == '-' || '0' <= t[0] <= '9')
    && (forall i :: 0 <= i < |t| ==> IsNumberChar(t[i]))
    && (exists i :: 0 <= i < |t| && IsFracChar(t[i]))
  }

  // ---- the normal form: keys sorted, integral floats turned into integers ----

  function CanonNumber(n: Number): Number {
    if n.Whole? && -LIMIT <= n.w <= LIMIT then Int(n.w) else n
  }

  function Canon(v: Json): Json {
    match v
    case Num(n) => Num(CanonNumber(n))
    case Arr(items) => Arr(CanonItems(items))
    case Obj(ms) => Obj(SortMembers(CanonMembers(ms)))
    case _ => v
  }

  function CanonItems(items: seq<Json>): (r: seq<Json>)
    ensures |r| == |items| && forall i :: 0 <= i < |items| ==> r[i] == Canon(items[i])
  {
    seq(|items|, i requires 0 <= i < |items| => Canon(items[i]))
  }

  function CanonMembers(ms: seq<Member>): (r: seq<Member>)
    ensures |r| == |ms| && forall i :: 0 <= i < |ms| ==> r[i] == Member(ms[i].key, Canon(ms[i].value))
  {
    seq(|ms|, i requires 0 <= i < |ms| => Member(ms[i].key, Canon(ms[i].value)))
  }

  function InsertMember(m: Member, ms: seq<Member>): seq<Member> {
    if ms == [] || Less(m.key, ms[0].key) then Cons(m, ms) else Cons(ms[0], InsertMember(m, ms[1..]))
  }

  function SortMembers(ms: seq<Member>): seq<Member> {
    if ms == [] then [] else InsertMember(ms[0], SortMembers(ms[1..]))
  }

  predicate SortedKeys(ms: seq<Member>) {
    forall i, j :: 0 <= i < j < |ms| ==> Less(ms[i].key, ms[j].key)
  }

  /** Documents in normal form. */
  predicate IsCanon(v: Json) {
    match v
    case Num(n) => n.Int? || (n.Frac? && IsFracToken(n.token))
    case Arr(items) => forall i :: 0 <= i < |items| ==> IsCanon(items[i])
    case Obj(ms) => SortedKeys(ms) && forall i :: 0 <= i < |ms| ==> IsCanon(ms[i].value)
    case _ => true
  }

  /** The value of a key; keys are distinct. */
  function Find(ms: seq<Member>, key: string): Option<Json> {
    if ms == [] then None else if ms[0].key == key then Some(ms[0].value) else Find(ms[1..], key)
  }

  lemma {:induction false} FindAt(ms: seq<Member>, i: nat)
    requires DistinctKeys(ms) && i < |ms|
    ensures Find(ms, ms[i].key) == Some(ms[i].value)
  {
    if i > 0 {
      assert ms[0].key != ms[i].key;
      FindAt(ms[1..], i - 1);
    }
  }

  lemma {:induction false} FindIndex(ms: seq<Member>, key: string) returns (i: nat)
    requires Find(ms, key).Some?
    ensures i < |ms| && ms[i] == Member(key, Find(ms, key).value)
  {
    if ms[0].key == key {
      i := 0;
    } else {
      i := FindIndex(ms[1..], key);
      i := i + 1;
    }
  }

  // ---- equality up to member order ----

  /** One number: written alike, or an integer and a float with its value. */
  predicate SameNumber(m: Number, n: Number) {
    || m == n
    || (m.Int? && n.Whole? && m.i == n.w)
    || (m.Whole? && n.Int? && m.w == n.i)
  }

  /** Two documents that differ at most in the order of object members and in writing an integral
      float as a float or as an integer. */
  ghost predicate Same(v: Json, w: Json) {
    match v
    case Num(n) => w.Num? && SameNumber(n, w.n)
    case Arr(items) => w.Arr? && |items| == |w.items| && forall i :: 0 <= i < |items| ==> Same(items[i], w.items[i])
    case Obj(ms) => w.Obj?
      && (forall i :: 0 <= i < |ms| ==>
        var f := Find(w.members, ms[i].key); f.Some? && Same(ms[i].value, f.value))
      && (forall j :: 0 <= j < |w.members| ==> Find(ms, w.members[j].key).Some?)
    case _ => v == w
  }

  // ---- facts about the order and sorting ----

  lemma {:induction false} LessIsStrict(a: string, b: string, c: string)
    ensures !Less(a, a)
    ensures Less(a, b) && Less(b, c) ==> Less(a, c)
    ensures Less(a, b) || Less(b, a) || a == b
    ensures Less(a, b) ==> !Less(b, a)
  {
    if a != "" {
      LessIsStrict(a[1..], if b == "" then "" else b[1..], if c == "" then "" else c[1..]);
      if b != "" && a[0] == b[0] && a[1..] == b[1..] {
        assert a == [a[0]] + a[1..] && b == [b[0]] + b[1..];
      }
    }
  }

  /** Inserting adds the one member and keeps strict order. */
  lemma {:induction false} InsertMemberSorts(m: Member, ms: seq<Member>)
    requires SortedKeys(ms) && forall i :: 0 <= i < |ms| ==> ms[i].key != m.key
    ensures SortedKeys(InsertMember(m, ms))
    ensures forall x :: x in InsertMember(m, ms) <==> x == m || x in ms
  {
    if ms != [] {
      assert ms == [ms[0]] + ms[1..];
      LessIsStrict(m.key, ms[0].key, m.key);
      if Less(m.key, ms[0].key) {
        forall i | 0 <= i < |ms| ensures Less(m.key, ms[i].key) {
          LessIsStrict(m.key, ms[0].key, ms[i].key);
        }
      } else {
        InsertMemberSorts(m, ms[1..]);
        var t := InsertMember(m, ms[1..]);
        forall i | 0 <= i < |t| ensures Less(ms[0].key, t[i].key) {
          assert t[i] in t;
        }
      }
    }
  }

  lemma {:induction false} SortMembersSorts(ms: seq<Member>)
    requires DistinctKeys(ms)
    ensures SortedKeys(SortMembers(ms))
    ensures forall x :: x in SortMembers(ms) <==> x in ms
  {
    if ms != [] {
      assert ms == [ms[0]] + ms[1..];
      SortMembersSorts(ms[1..]);
      var t := SortMembers(ms[1..]);
      forall i | 0 <= i < |t| ensures t[i].key != ms[0].key {
        assert t[i] in ms[1..];
      }
      InsertMemberSorts(ms[0], t);
    }
  }

  /** A strictly sorted list is determined by its members. */
  lemma {:induction false} SortedIsUnique(a: seq<Member>, b: seq<Member>)
    requires SortedKeys(a) && SortedKeys(b) && forall x :: x in a <==> x in b
    ensures a == b
  {
    assert b != [] ==> b[0] in b;
    if a != [] {
      assert a[0] in b;
      assert b[0] in a;
      FirstOfSorted(a, b);
      assert a == [a[0]] + a[1..] && b == [b[0]] + b[1..];
      TailHasNotHead(a);
      TailHasNotHead(b);
      forall x ensures x in a[1..] <==> x in b[1..] {
        assert x in a <==> x == a[0] || x in a[1..];
        assert x in b <==> x == b[0] || x in b[1..];
      }
      SortedIsUnique(a[1..], b[1..]);
    }
  }

  lemma FirstOfSorted(a: seq<Member>, b: seq<Member>)
    requires SortedKeys(a) && SortedKeys(b) && a != [] && b != [] && a[0] in b && b[0] in a
    ensures a[0] == b[0]
  {
    var i :| 0 <= i < |a| && a[i] == b[0];
    var j :| 0 <= j < |b| && b[j] == a[0];
    LessIsStrict(a[0].key, b[0].key, a[0].key);
    LessIsStrict(b[0].key, a[0].key, b[0].key);
  }

  lemma TailHasNotHead(a: seq<Member>)
    requires SortedKeys(a) && a != []
    ensures a[0] !in a[1..]
  {
    forall i | 0 <= i < |a[1..]| ensures a[1..][i] != a[0] {
      LessIsStrict(a[0].key, a[i + 1].key, a[0].key);
    }
  }

  // ---- the normal form decides equality ----

  lemma {:induction false} CanonIsCanon(v: Json)
    requires WellFormed(v) && Finite(v)
    ensures IsCanon(Canon(v))
  {
    match v
    case Arr(items) =>
      forall i | 0 <= i < |items| ensures IsCanon(CanonItems(items)[i]) {
        CanonIsCanon(items[i]);
      }
    case Obj(ms) =>
      var cs := CanonMembers(ms);
      SortMembersSorts(cs);
      forall i | 0 <= i < |ms| ensures IsCanon(cs[i].value) {
        CanonIsCanon(ms[i].value);
      }
      var t := SortMembers(cs);
      forall i | 0 <= i < |t| ensures IsCanon(t[i].value) {
        assert t[i] in cs;
      }
    case _ =>
  }

  /** Two well-formed documents have one normal form exactly when they are the same document. */
  lemma {:induction false} CanonDecides(v: Json, w: Json)
    requires WellFormed(v) && WellFormed(w)
    ensures Canon(v) == Canon(w) <==> Same(v, w)
  {
    match v
    case Arr(items) =>
      if w.Arr? && |items| == |w.items| {
        forall i | 0 <= i < |items| ensures Canon(items[i]) == Canon(w.items[i]) <==> Same(items[i], w.items[i]) {
          CanonDecides(items[i], w.items[i]);
        }
      }
      if w.Arr? && Canon(v) == Canon(w) {
        assert CanonItems(items) == CanonItems(w.items);
      }
    case Obj(ms) =>
      if w.Obj? {
        forall i, j | 0 <= i < |ms| && 0 <= j < |w.members| ensures ValuesDecide(ms, w.members, i, j) {
          CanonDecides(ms[i].value, w.members[j].value);
        }
        CanonMembersDecide(ms, w.members);
      }
    case _ =>
  }

  ghost predicate ValuesDecide(ms: seq<Member>, ns: seq<Member>, i: nat, j: nat)
    requires i < |ms| && j < |ns|
  {
    Canon(ms[i].value) == Canon(ns[j].value) <==> Same(ms[i].value, ns[j].value)
  }

  lemma CanonMembersDecide(ms: seq<Member>, ns: seq<Member>)
    requires DistinctKeys(ms) && DistinctKeys(ns)
    requires forall i, j :: 0 <= i < |ms| && 0 <= j < |ns| ==> ValuesDecide(ms, ns, i, j)
    ensures SortMembers(CanonMembers(ms)) == SortMembers(CanonMembers(ns)) <==> Same(Obj(ms), Obj(ns))
  {
    var a, b := CanonMembers(ms), CanonMembers(ns);
    SortMembersSorts(a);
    SortMembersSorts(b);
    if SortMembers(a) == SortMembers(b) {
      assert forall x :: x in a <==> x in b;
      SameFromMembers(ms, ns);
    }
    if Same(Obj(ms), Obj(ns)) {
      MembersFromSame(ms, ns);
      SortedIsUnique(SortMembers(a), SortMembers(b));
    }
  }

  lemma SameFromMembers(ms: seq<Member>, ns: seq<Member>)
    requires DistinctKeys(ms) && DistinctKeys(ns)
    requires forall x :: x in CanonMembers(ms) <==> x in CanonMembers(ns)
    requires forall i, j :: 0 <= i < |ms| && 0 <= j < |ns| ==> ValuesDecide(ms, ns, i, j)
    ensures Same(Obj(ms), Obj(ns))
  {
    var a, b := CanonMembers(ms), CanonMembers(ns);
    forall i | 0 <= i < |ms|
      ensures Find(ns, ms[i].key).Some? && Same(ms[i].value, Find(ns, ms[i].key).value)
    {
      assert a[i] in b;
      var j :| 0 <= j < |b| && b[j] == a[i];
      FindAt(ns, j);
      assert ValuesDecide(ms, ns, i, j);
    }
    forall j | 0 <= j < |ns| ensures Find(ms, ns[j].key).Some? {
      assert b[j] in a;
      var i :| 0 <= i < |a| && a[i] == b[j];
      FindAt(ms, i);
    }
  }

  lemma MembersFromSame(ms: seq<Member>, ns: seq<Member>)
    requires DistinctKeys(ms) && DistinctKeys(ns) && Same(Obj(ms), Obj(ns))
    requires forall i, j :: 0 <= i < |ms| && 0 <= j < |ns| ==> ValuesDecide(ms, ns, i, j)
    ensures forall x :: x in CanonMembers(ms) <==> x in CanonMembers(ns)
  {
    var a, b := CanonMembers(ms), CanonMembers(ns);
    forall i | 0 <= i < |a| ensures a[i] in b {
      var j := MatchOf(ms, ns, i);
    }
    forall j | 0 <= j < |b| ensures b[j] in a {
      var i := FindIndex(ms, ns[j].key);
      var k := MatchOf(ms, ns, i);
      assert a[i] == b[j];
    }
  }

  lemma MatchOf(ms: seq<Member>, ns: seq<Member>, i: nat) returns (j: nat)
    requires DistinctKeys(ns) && Same(Obj(ms), Obj(ns)) && i < |ms|
    requires forall i, j :: 0 <= i < |ms| && 0 <= j < |ns| ==> ValuesDecide(ms, ns, i, j)
    ensures j < |ns| && ns[j].key == ms[i].key && CanonMembers(ns)[j] == CanonMembers(ms)[i]
  {
    j := FindIndex(ns, ms[i].key);
    assert ValuesDecide(ms, ns, i, j);
  }
}
