/** When the spans that overlap removal keeps are determined by the input: the gateway's sort compares
    start and confidence, and leaves the order of spans that tie on both open. */
module SpanTies {
  import opened Spans

  predicate Tied(x: Span, y: Span) {
    x.start == y.start && x.confidence == y.confidence
  }

  /** The gateway's order, with ties broken by the end: the shorter span first. */
  predicate ShortFirst(x: Span, y: Span) {
    x.start < y.start
      || (x.start == y.start && (x.confidence > y.confidence || (x.confidence == y.confidence && x.end <= y.end)))
  }

  ghost predicate Determined(spans: multiset<Span>) {
    forall a, b :: Deduped(GoBefore, spans, a) && Deduped(GoBefore, spans, b) ==> a == b
  }

  /** A kept span ties with another span of the input. */
  ghost predicate KeepsATie(kept: seq<Span>, spans: seq<Span>) {
    exists x, y :: x in kept && y in spans && Tied(x, y) && x != y
  }

  // ---- what the sort keys determine ----

  function Key(x: Span): (int, real) {
    (x.start, x.confidence)
  }

  function Keys(s: seq<Span>): (r: seq<(int, real)>)
    ensures |r| == |s| && forall i :: 0 <= i < |s| ==> r[i] == Key(s[i])
  {
    seq(|s|, i requires 0 <= i < |s| => Key(s[i]))
  }

  predicate KeyBefore(a: (int, real), b: (int, real)) {
    a.0 < b.0 || (a.0 == b.0 && a.1 >= b.1)
  }

  function Rest<T>(s: seq<T>, k: nat): seq<T>
    requires k < |s|
  {
    s[..k] + s[k + 1..]
  }

  lemma RestOf<T>(s: seq<T>, k: nat)
    requires k < |s|
    ensures multiset(Rest(s, k)) == multiset(s) - multiset{s[k]}
  {
    assert s == s[..k] + [s[k]] + s[k + 1..];
  }

  lemma {:induction false} KeysPermute(a: seq<Span>, b: seq<Span>)
    requires multiset(a) == multiset(b)
    ensures multiset(Keys(a)) == multiset(Keys(b))
    decreases |a|
  {
    SameSize(a, b);
    if a != [] {
      SameMembers(a, b);
      assert a[0] in b;
      var k :| 0 <= k < |b| && b[k] == a[0];
      RestOf(a, 0);
      RestOf(b, k);
      KeysPermute(Rest(a, 0), Rest(b, k));
      KeysOfRest(a, 0);
      KeysOfRest(b, k);
    }
  }

  lemma KeysOfRest(s: seq<Span>, k: nat)
    requires k < |s|
    ensures multiset(Keys(s)) == multiset(Keys(Rest(s, k))) + multiset{Key(s[k])}
  {
    assert Keys(Rest(s, k)) == Rest(Keys(s), k);
    RestOf(Keys(s), k);
  }

  lemma SameSize<T>(a: seq<T>, b: seq<T>)
    requires multiset(a) == multiset(b)
    ensures |a| == |b|
  {
    assert |multiset(a)| == |a| && |multiset(b)| == |b|;
  }

  lemma TailOf(a: seq<(int, real)>)
    requires a != [] && SortedKeys(a)
    ensures multiset(a[1..]) == multiset(a) - multiset{a[0]} && SortedKeys(a[1..])
  {
    RestOf(a, 0);
    assert Rest(a, 0) == a[1..];
  }

  ghost predicate SortedKeys(a: seq<(int, real)>) {
    forall i, j :: 0 <= i < j < |a| ==> KeyBefore(a[i], a[j])
  }

  lemma {:induction false} SortedKeysAreUnique(a: seq<(int, real)>, b: seq<(int, real)>)
    requires multiset(a) == multiset(b) && SortedKeys(a) && SortedKeys(b)
    ensures a == b
    decreases |a|
  {
    SameSize(a, b);
    if a != [] {
      FirstKeys(a, b);
      TailOf(a);
      TailOf(b);
      SortedKeysAreUnique(a[1..], b[1..]);
      assert a == [a[0]] + a[1..] && b == [b[0]] + b[1..];
    }
  }

  lemma FirstKeys(a: seq<(int, real)>, b: seq<(int, real)>)
    requires multiset(a) == multiset(b) && SortedKeys(a) && SortedKeys(b) && a != [] && b != []
    ensures a[0] == b[0]
  {
    assert a[0] in multiset(b) && b[0] in multiset(a);
    var k :| 0 <= k < |b| && b[k] == a[0];
    var m :| 0 <= m < |a| && a[m] == b[0];
  }

  /** Any two sorted orders of one input tie place by place. */
  lemma OrdersTie(a: seq<Span>, b: seq<Span>)
    requires multiset(a) == multiset(b) && SortedBy(GoBefore, a) && SortedBy(GoBefore, b)
    ensures |a| == |b| && forall i :: 0 <= i < |a| ==> Tied(a[i], b[i])
  {
    SameSize(a, b);
    KeysPermute(a, b);
    SortedKeysAreUnique(Keys(a), Keys(b));
    forall i | 0 <= i < |a| ensures Tied(a[i], b[i]) {
      assert Keys(a)[i] == Keys(b)[i];
    }
  }

  // ---- who can be kept ----

  predicate Enters(kept: seq<Span>, x: Span) {
    kept == [] || x.start >= kept[|kept| - 1].end || x.confidence > kept[|kept| - 1].confidence
  }

  /** The last span kept covers the start of the last one seen and is at least as confident. */
  lemma {:induction false} LastCovers(s: seq<Span>, n: nat)
    requires 0 < n <= |s| && NonEmptySpans(s)
    ensures SweepTo(s, n) != []
    ensures var last := SweepTo(s, n)[|SweepTo(s, n)| - 1];
      s[n - 1].start < last.end && s[n - 1].confidence <= last.confidence
  {
  }

  /** First of its block of tied spans. */
  predicate IsFirst(s: seq<Span>, n: nat)
    requires n < |s|
  {
    n == 0 || !Tied(s[n - 1], s[n])
  }

  lemma OnlyFirstsEnter(s: seq<Span>, n: nat)
    requires n < |s| && NonEmptySpans(s) && Enters(SweepTo(s, n), s[n])
    ensures IsFirst(s, n)
  {
    if n > 0 {
      LastCovers(s, n);
    }
  }

  lemma {:induction false} KeptIsFirst(s: seq<Span>, n: nat, z: Span) returns (f: nat)
    requires n <= |s| && NonEmptySpans(s) && z in SweepTo(s, n)
    ensures f < n && s[f] == z && IsFirst(s, f)
  {
    var kept := SweepTo(s, n - 1);
    if z in kept {
      f := KeptIsFirst(s, n - 1, z);
    } else {
      f := n - 1;
      OnlyFirstsEnter(s, f);
    }
  }

  lemma BlocksAreContiguous(s: seq<Span>, i: nat, j: nat)
    requires i < j < |s| && SortedBy(GoBefore, s) && Tied(s[i], s[j])
    ensures !IsFirst(s, j)
  {
    assert i == j - 1 || (GoBefore(s[i], s[j - 1]) && GoBefore(s[j - 1], s[j]));
  }

  /** All but the last span kept so far stay. */
  lemma {:induction false} FrontStays(s: seq<Span>, n: nat, m: nat, k: nat)
    requires n <= m <= |s| && k + 1 < |SweepTo(s, n)|
    ensures k + 1 < |SweepTo(s, m)| && SweepTo(s, m)[k] == SweepTo(s, n)[k]
  {
    if n < m {
      FrontStays(s, n, m - 1, k);
    }
  }

  // ---- two orders of one input ----

  /** The spans kept so far are the same, or differ only in a last one that ties with the other and is
      the shorter. */
  ghost predicate Agree(a: seq<Span>, b: seq<Span>) {
    a == b || (|a| == |b| > 0 && a[..|a| - 1] == b[..|a| - 1] && Parted(a[|a| - 1], b[|a| - 1]))
  }

  predicate Parted(x: Span, y: Span) {
    Tied(x, y) && x != y && x.end <= y.end
  }

  lemma ShortFirstIsTotal()
    ensures TotalOrder(ShortFirst)
  {
  }

  lemma ShortFirstRefines(s: seq<Span>)
    requires SortedBy(ShortFirst, s)
    ensures SortedBy(GoBefore, s)
  {
  }

  /** The first of a block in the short-first order is as short as any that ties with it. */
  lemma FirstIsShortest(m: seq<Span>, b: seq<Span>, n: nat)
    requires multiset(m) == multiset(b) && SortedBy(ShortFirst, m) && n < |m| == |b|
      && Tied(m[n], b[n]) && IsFirst(m, n)
    ensures m[n] == b[n] || Parted(m[n], b[n])
  {
    SameMembers(m, b);
    ShortFirstRefines(m);
    assert b[n] in m;
    var j :| 0 <= j < |m| && m[j] == b[n];
    if j < n {
      BlocksAreContiguous(m, j, n);
    }
  }

  /** One more span keeps the agreement, unless the short-first order keeps a tie for good. */
  lemma AgreeStep(m: seq<Span>, b: seq<Span>, n: nat)
    requires multiset(m) == multiset(b) && SortedBy(ShortFirst, m) && SortedBy(GoBefore, b) && n < |m| == |b|
    requires NonEmptySpans(m) && Tied(m[n], b[n]) && Agree(SweepTo(m, n), SweepTo(b, n)) && !KeepsATie(Sweep(m), m)
    requires SweepTo(m, n) != SweepTo(b, n) ==> SweepTo(b, n)[|SweepTo(b, n)| - 1] in m
    ensures Agree(SweepTo(m, n + 1), SweepTo(b, n + 1))
  {
    var p, q := SweepTo(m, n), SweepTo(b, n);
    if Enters(p, m[n]) {
      OnlyFirstsEnter(m, n);
      FirstIsShortest(m, b, n);
    }
    if p != q && m[n].start >= p[|p| - 1].end {
      TieStays(m, n, p[|p| - 1], q[|q| - 1]);
    }
  }

  lemma TieStays(m: seq<Span>, n: nat, x: Span, y: Span)
    requires n < |m| && SweepTo(m, n) != [] && SweepTo(m, n)[|SweepTo(m, n)| - 1] == x && m[n].start >= x.end
    requires y in m && Tied(x, y) && x != y
    ensures KeepsATie(Sweep(m), m)
  {
    var k := |SweepTo(m, n)| - 1;
    FrontStays(m, n + 1, |m|, k);
    assert Sweep(m)[k] == x;
  }

  lemma LastIsGiven(m: seq<Span>, b: seq<Span>, n: nat)
    requires multiset(m) == multiset(b) && n <= |b|
    ensures SweepTo(b, n) != [] ==> SweepTo(b, n)[|SweepTo(b, n)| - 1] in m
  {
    if SweepTo(b, n) != [] {
      var j := KeptFrom(b, n, |SweepTo(b, n)| - 1);
      SameMembers(m, b);
      assert b[j] in b;
    }
  }

  lemma {:induction false} OrdersAgree(m: seq<Span>, b: seq<Span>, n: nat)
    requires multiset(m) == multiset(b) && SortedBy(ShortFirst, m) && SortedBy(GoBefore, b) && n <= |m| == |b|
    requires NonEmptySpans(m) && !KeepsATie(Sweep(m), m)
    ensures Agree(SweepTo(m, n), SweepTo(b, n))
  {
    if n > 0 {
      OrdersAgree(m, b, n - 1);
      ShortFirstRefines(m);
      OrdersTie(m, b);
      LastIsGiven(m, b, n - 1);
      AgreeStep(m, b, n - 1);
    }
  }

  /** When the short-first order keeps no tie, every order keeps the same spans. */
  lemma NoTieKept(m: seq<Span>, b: seq<Span>)
    requires multiset(m) == multiset(b) && SortedBy(ShortFirst, m) && SortedBy(GoBefore, b)
    requires NonEmptySpans(m) && !KeepsATie(Sweep(m), m)
    ensures Sweep(m) == Sweep(b)
  {
    SameSize(m, b);
    OrdersAgree(m, b, |m|);
    if Sweep(b) != [] {
      PartedIsATie(m, b);
    }
  }

  lemma PartedIsATie(m: seq<Span>, b: seq<Span>)
    requires multiset(m) == multiset(b) && Sweep(b) != [] && Agree(Sweep(m), Sweep(b))
    ensures Sweep(m) == Sweep(b) || KeepsATie(Sweep(m), m)
  {
    var p, q := Sweep(m), Sweep(b);
    var j := KeptFrom(b, |b|, |q| - 1);
    SameMembers(m, b);
    assert b[j] in b;
    assert p != [] ==> p[|p| - 1] in p;
  }

  /** With a tie kept, another order keeps something else: the one where the other span comes first. */
  lemma TieKept(m: seq<Span>, x: Span, y: Span) returns (b: seq<Span>)
    requires SortedBy(GoBefore, m) && NonEmptySpans(m) && x in Sweep(m) && y in m && Tied(x, y) && x != y
    ensures multiset(b) == multiset(m) && SortedBy(GoBefore, b) && Sweep(b) != Sweep(m)
  {
    var f := KeptIsFirst(m, |m|, x);
    var l :| 0 <= l < |m| && m[l] == y;
    if l < f {
      BlocksAreContiguous(m, l, f);
      assert false;
    }
    b := m[f := y][l := x];
    Swapped(m, f, l);
    if x in Sweep(b) {
      var g := KeptIsFirst(b, |b|, x);
      if g < f {
        BlocksAreContiguous(m, g, f);
      } else {
        BlocksAreContiguous(b, f, g);
      }
      assert false;
    }
  }

  lemma Swapped(m: seq<Span>, f: nat, l: nat)
    requires f < l < |m| && SortedBy(GoBefore, m) && Tied(m[f], m[l])
    ensures multiset(m[f := m[l]][l := m[f]]) == multiset(m) && SortedBy(GoBefore, m[f := m[l]][l := m[f]])
  {
  }

  /** For non-empty spans the result is the same whatever the sort does with ties exactly when sweeping
      the spans with the shorter of tied ones first keeps none that ties with another. */
  lemma DeterminedIff(spans: seq<Span>)
    requires NonEmptySpans(spans)
    ensures Determined(multiset(spans)) <==> !KeepsATie(Sweep(Sort(ShortFirst, spans)), spans)
  {
    var m := Sort(ShortFirst, spans);
    ShortFirstIsTotal();
    SortIsSorted(ShortFirst, spans);
    ShortFirstRefines(m);
    SameMembers(m, spans);
    forall i | 0 <= i < |m| ensures m[i].start < m[i].end {
      assert m[i] in spans;
    }
    if !KeepsATie(Sweep(m), spans) {
      forall a, b | Deduped(GoBefore, multiset(spans), a) && Deduped(GoBefore, multiset(spans), b) ensures a == b {
        var s :| SweptFrom(GoBefore, multiset(spans), s, a);
        var t :| SweptFrom(GoBefore, multiset(spans), t, b);
        NoTieKept(m, s);
        NoTieKept(m, t);
      }
    } else {
      var x, y :| x in Sweep(m) && y in spans && Tied(x, y) && x != y;
      var b := TieKept(m, x, y);
      assert SweptFrom(GoBefore, multiset(spans), m, Sweep(m));
      assert SweptFrom(GoBefore, multiset(spans), b, Sweep(b));
      assert Deduped(GoBefore, multiset(spans), Sweep(m)) && Deduped(GoBefore, multiset(spans), Sweep(b));
    }
  }

  /** In particular when no two different spans tie at all. */
  lemma NoTiesDetermine(spans: seq<Span>)
    requires NonEmptySpans(spans) && forall x, y :: x in spans && y in spans && Tied(x, y) ==> x == y
    ensures Determined(multiset(spans))
  {
    DeterminedIff(spans);
    var m := Sort(ShortFirst, spans);
    ShortFirstIsTotal();
    SortIsSorted(ShortFirst, spans);
    SameMembers(m, spans);
    forall x | x in Sweep(m) ensures x in spans {
      var k :| 0 <= k < |Sweep(m)| && Sweep(m)[k] == x;
      var j := KeptFrom(m, |m|, k);
      assert m[j] in m;
    }
  }

  // ---- the detector service's order: the longer of tied spans first ----

  lemma PyRefines(s: seq<Span>)
    requires SortedBy(PyBefore, s)
    ensures SortedBy(GoBefore, s)
  {
    forall i, j | 0 <= i < j < |s| ensures GoBefore(s[i], s[j]) {
      assert PyBefore(s[i], s[j]);
    }
  }

  /** In Python a span that is kept is at least as long as any of the input that ties with it. */
  lemma LongerOfTiedSurvives(spans: seq<Span>, kept: seq<Span>, x: Span, y: Span)
    requires NonEmptySpans(spans) && Deduped(PyBefore, multiset(spans), kept)
    requires x in kept && y in spans && Tied(x, y)
    ensures y.end <= x.end
  {
    var s: seq<Span> :| SweptFrom(PyBefore, multiset(spans), s, kept);
    SameMembers(s, spans);
    forall i | 0 <= i < |s| ensures s[i].start < s[i].end {
      assert s[i] in spans;
    }
    PyRefines(s);
    var f := KeptIsFirst(s, |s|, x);
    var l :| 0 <= l < |s| && s[l] == y;
    if l < f {
      BlocksAreContiguous(s, l, f);
      assert false;
    }
    assert f < l ==> PyBefore(s[f], s[l]);
  }
}
