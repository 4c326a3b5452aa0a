/** Overlap removal: a left-to-right sweep that keeps the more confident of two overlapping spans. */
module Spans {

  datatype Span = Span(start: int, end: int, tag: string, confidence: real)

  predicate Overlap(x: Span, y: Span) {
    x.start < y.end && y.start < x.end
  }

  ghost predicate ByStart(s: seq<Span>) {
    forall i, j :: 0 <= i < j < |s| ==> s[i].start <= s[j].start
  }

  ghost predicate NonEmptySpans(s: seq<Span>) {
    forall i :: 0 <= i < |s| ==> s[i].start < s[i].end
  }

  /** One step of the sweep: x against the last span kept. */
  function Absorb(kept: seq<Span>, x: Span): seq<Span> {
    if kept != [] && x.start < kept[|kept| - 1].end then
      if x.confidence > kept[|kept| - 1].confidence then kept[|kept| - 1 := x] else kept
    else kept + [x]
  }

  /** The spans kept after reading the first n. */
  function SweepTo(s: seq<Span>, n: nat): seq<Span>
    requires n <= |s|
  {
    if n == 0 then [] else Absorb(SweepTo(s, n - 1), s[n - 1])
  }

  function Sweep(s: seq<Span>): seq<Span> {
    SweepTo(s, |s|)
  }

  /** Confidence is scored from 0 upwards; no span scores 0. */
  function Score(s: seq<Span>): real {
    ScoreTo(s, |s|)
  }

  function ScoreTo(s: seq<Span>, n: nat): real
    requires n <= |s|
  {
    if n == 0 then 0.0 else RMax(ScoreTo(s, n - 1), s[n - 1].confidence)
  }

  function RMax(a: real, b: real): real {
    if b > a then b else a
  }

  // ---- sorting: any sorted permutation will do; these stand for the library sorts ----

  /** Go: by start, then the more confident first. */
  predicate GoBefore(x: Span, y: Span) {
    x.start < y.start || (x.start == y.start && x.confidence >= y.confidence)
  }

  /** Python: by start, then the more confident, then the longer first. */
  predicate PyBefore(x: Span, y: Span) {
    x.start < y.start || (x.start == y.start && (x.confidence > y.confidence
      || (x.confidence == y.confidence && x.end - x.start >= y.end - y.start)))
  }

  ghost predicate SortedBy(before: (Span, Span) -> bool, s: seq<Span>) {
    forall i, j :: 0 <= i < j < |s| ==> before(s[i], s[j])
  }

  ghost predicate TotalOrder(before: (Span, Span) -> bool) {
    && (forall x, y :: before(x, y) || before(y, x))
    && (forall x, y, z :: before(x, y) && before(y, z) ==> before(x, z))
  }

  function Insert(before: (Span, Span) -> bool, x: Span, s: seq<Span>): seq<Span> {
    if s == [] || before(x, s[0]) then [x] + s else [s[0]] + Insert(before, x, s[1..])
  }

  function Sort(before: (Span, Span) -> bool, s: seq<Span>): seq<Span> {
    if s == [] then [] else Insert(before, s[0], Sort(before, s[1..]))
  }

  lemma {:induction false} InsertMembers(before: (Span, Span) -> bool, x: Span, s: seq<Span>)
    ensures multiset(Insert(before, x, s)) == multiset(s) + multiset{x}
    ensures forall i :: 0 <= i < |Insert(before, x, s)| ==> Insert(before, x, s)[i] == x || Insert(before, x, s)[i] in s
  {
    if s != [] {
      assert s == [s[0]] + s[1..];
      if !before(x, s[0]) {
        InsertMembers(before, x, s[1..]);
      }
    }
  }

  lemma {:induction false} InsertIsSorted(before: (Span, Span) -> bool, x: Span, s: seq<Span>)
    requires TotalOrder(before) && SortedBy(before, s)
    ensures SortedBy(before, Insert(before, x, s))
  {
    if s != [] && !before(x, s[0]) {
      InsertIsSorted(before, x, s[1..]);
      InsertMembers(before, x, s[1..]);
      assert forall y :: y in s[1..] ==> before(s[0], y);
    }
  }

  lemma {:induction false} SortIsSorted(before: (Span, Span) -> bool, s: seq<Span>)
    requires TotalOrder(before)
    ensures SortedBy(before, Sort(before, s))
    ensures multiset(Sort(before, s)) == multiset(s) && |Sort(before, s)| == |s|
  {
    if s != [] {
      assert s == [s[0]] + s[1..];
      SortIsSorted(before, s[1..]);
      InsertIsSorted(before, s[0], Sort(before, s[1..]));
      InsertMembers(before, s[0], Sort(before, s[1..]));
      assert |multiset(Sort(before, s))| == |Sort(before, s)|;
    }
  }

  /** kept is the sweep of some sorted order of these spans: ties, and so the order the spans came in,
      are left open. */
  ghost predicate Deduped(before: (Span, Span) -> bool, spans: multiset<Span>, kept: seq<Span>) {
    exists sorted :: SweptFrom(before, spans, sorted, kept)
  }

  ghost predicate SweptFrom(before: (Span, Span) -> bool, spans: multiset<Span>, sorted: seq<Span>, kept: seq<Span>) {
    multiset(sorted) == spans && SortedBy(before, sorted) && kept == Sweep(sorted)
  }

  lemma ShortIsSwept(before: (Span, Span) -> bool, spans: seq<Span>)
    requires |spans| < 2
    ensures Sort(before, spans) == spans && Sweep(spans) == spans && Deduped(before, multiset(spans), spans)
  {
    if |spans| == 1 {
      assert spans[1..] == [] && SweepTo(spans, 0) == [] && SweepTo(spans, 1) == Absorb([], spans[0]);
    }
    assert SweptFrom(before, multiset(spans), spans, spans);
  }

  // ---- the two implementations ----

  /** The gateway's version: sorts and compacts the slice in place; the result is spans[..n]. */
  method DedupOverlapsGo(spans: array<Span>) returns (n: nat)
    modifies spans
    ensures n <= spans.Length && Deduped(GoBefore, multiset(old(spans[..])), spans[..n])
  {
    if spans.Length < 2 {
      n := spans.Length;
      ShortIsSwept(GoBefore, spans[..]);
      assert spans[..n] == spans[..];
      return;
    }
    ghost var given := multiset(spans[..]);
    var order := Sort(GoBefore, spans[..]);
    SortIsSorted(GoBefore, spans[..]);
    forall i | 0 <= i < spans.Length {
      spans[i] := order[i];
    }
    assert spans[..] == order;
    n := Compact(spans);
    assert SweptFrom(GoBefore, given, order, spans[..n]);
  }

  /** The write index trails the read index, so the sweep can overwrite the slice it reads. */
  method Compact(spans: array<Span>) returns (n: nat)
    modifies spans
    ensures n <= spans.Length && spans[..n] == Sweep(old(spans[..]))
  {
    n := 0;
    ghost var sorted, kept := spans[..], [];
    for i := 0 to spans.Length
      invariant n == |kept| <= i && kept == SweepTo(sorted, i)
      invariant forall k :: 0 <= k < n ==> spans[k] == kept[k]
      invariant forall k :: i <= k < spans.Length ==> spans[k] == sorted[k]
    {
      var s := spans[i];
      assert s == sorted[i] && (n > 0 ==> spans[n - 1] == kept[n - 1]);
      kept := Absorb(kept, s);
      if n > 0 && s.start < spans[n - 1].end {
        if s.confidence > spans[n - 1].confidence {
          spans[n - 1] := s;
        }
      } else {
        spans[n] := s;
        n := n + 1;
      }
    }
  }

  /** The detector service's version: a stable sort, and a new list whose last element may be
      overwritten. */
  method DedupOverlapsPython(spans: seq<Span>) returns (r: seq<Span>)
    ensures r == Sweep(Sort(PyBefore, spans)) && Deduped(PyBefore, multiset(spans), r)
  {
    SortIsSorted(PyBefore, spans);
    var order := Sort(PyBefore, spans);
    assert SweptFrom(PyBefore, multiset(spans), order, Sweep(order));
    if |spans| < 2 {
      ShortIsSwept(PyBefore, spans);
      return spans;
    }
    r := SweepList(order);
  }

  method SweepList(order: seq<Span>) returns (r: seq<Span>)
    ensures r == Sweep(order)
  {
    r := [];
    for i := 0 to |order|
      invariant r == SweepTo(order, i)
    {
      var s := order[i];
      if r != [] && s.start < r[|r| - 1].end {
        if s.confidence > r[|r| - 1].confidence {
          r := r[|r| - 1 := s];
        }
      } else {
        r := r + [s];
      }
    }
  }

  // ---- what the sweep guarantees ----

  ghost predicate Ladder(s: seq<Span>) {
    && (forall i :: 0 <= i < |s| ==> s[i].start <= s[i].end)
    && (forall i, j :: 0 <= i < j < |s| ==> s[i].end <= s[j].start)
  }

  /** What is kept comes from the input, in order of start, and no two kept spans overlap. */
  lemma KeptAreDisjoint(s: seq<Span>)
    requires ByStart(s) && forall i :: 0 <= i < |s| ==> s[i].start <= s[i].end
    ensures Ladder(Sweep(s)) && forall k :: 0 <= k < |Sweep(s)| ==> Sweep(s)[k] in s
  {
    LadderTo(s, |s|);
    forall k | 0 <= k < |Sweep(s)| ensures Sweep(s)[k] in s {
      var j := KeptFrom(s, |s|, k);
    }
  }

  lemma {:induction false} KeptFrom(s: seq<Span>, n: nat, k: nat) returns (j: nat)
    requires n <= |s| && k < |SweepTo(s, n)|
    ensures j < n && s[j] == SweepTo(s, n)[k]
  {
    if SweepTo(s, n)[k] == s[n - 1] {
      j := n - 1;
    } else {
      j := KeptFrom(s, n - 1, k);
    }
  }

  lemma {:induction false} LadderTo(s: seq<Span>, n: nat)
    requires ByStart(s) && n <= |s| && forall i :: 0 <= i < |s| ==> s[i].start <= s[i].end
    ensures Ladder(SweepTo(s, n))
  {
    if n > 0 {
      LadderTo(s, n - 1);
      var kept := SweepTo(s, n - 1);
      if kept != [] {
        var j := KeptFrom(s, n - 1, |kept| - 1);
      }
    }
  }

  /** The score of the kept spans is the score of all spans. */
  lemma SweepKeepsScore(s: seq<Span>)
    ensures Score(Sweep(s)) == Score(s)
  {
    SweepToKeepsScore(s, |s|);
  }

  lemma {:induction false} SweepToKeepsScore(s: seq<Span>, n: nat)
    requires n <= |s|
    ensures Score(SweepTo(s, n)) == ScoreTo(s, n)
  {
    if n > 0 {
      SweepToKeepsScore(s, n - 1);
      var kept := SweepTo(s, n - 1);
      if kept != [] {
        ScoreOfPrefix(kept, kept[|kept| - 1 := s[n - 1]], |kept| - 1);
      }
      ScoreOfPrefix(kept, kept + [s[n - 1]], |kept|);
    }
  }

  lemma {:induction false} ScoreOfPrefix(s: seq<Span>, t: seq<Span>, n: nat)
    requires n <= |s| && n <= |t| && forall i :: 0 <= i < n ==> s[i] == t[i]
    ensures ScoreTo(s, n) == ScoreTo(t, n)
  {
    if n > 0 {
      ScoreOfPrefix(s, t, n - 1);
    }
  }

  /** The score bounds every confidence and is 0 or attained. */
  lemma {:induction false} ScoreIsMax(s: seq<Span>, n: nat)
    requires n <= |s|
    ensures ScoreTo(s, n) >= 0.0 && forall i :: 0 <= i < n ==> s[i].confidence <= ScoreTo(s, n)
    ensures ScoreTo(s, n) == 0.0 || exists i :: 0 <= i < n && s[i].confidence == ScoreTo(s, n)
  {
    if n > 0 {
      ScoreIsMax(s, n - 1);
    }
  }

  lemma ScoreOfPermutation(s: seq<Span>, t: seq<Span>)
    requires multiset(s) == multiset(t)
    ensures Score(s) == Score(t)
  {
    ScoreIsMax(s, |s|);
    ScoreIsMax(t, |t|);
    assert forall i :: 0 <= i < |s| ==> s[i] in multiset(t);
    assert forall i :: 0 <= i < |t| ==> t[i] in multiset(s);
  }

  /** Span i is strictly more confident than every other span it overlaps. */
  ghost predicate Dominant(s: seq<Span>, i: nat) {
    i < |s| && forall j :: 0 <= j < |s| && j != i && Overlap(s[i], s[j]) ==> s[j].confidence < s[i].confidence
  }

  /** A span strictly more confident than all spans it overlaps survives. */
  lemma DominantSurvives(s: seq<Span>, i: nat)
    requires ByStart(s) && NonEmptySpans(s) && Dominant(s, i)
    ensures s[i] in Sweep(s)
  {
    DominantStays(s, i, |s|);
  }

  lemma {:induction false} DominantStays(s: seq<Span>, i: nat, n: nat)
    requires ByStart(s) && NonEmptySpans(s) && Dominant(s, i) && i < n <= |s|
    ensures s[i] in SweepTo(s, n)
  {
    if n == i + 1 {
      DominantEnters(s, i);
    } else {
      DominantStays(s, i, n - 1);
      var kept := SweepTo(s, n - 1);
      assert s[n - 1].start < s[i].end ==> Overlap(s[i], s[n - 1]);
      assert forall k :: 0 <= k < |kept| - 1 ==> Absorb(kept, s[n - 1])[k] == kept[k];
    }
  }

  lemma DominantEnters(s: seq<Span>, i: nat)
    requires ByStart(s) && NonEmptySpans(s) && Dominant(s, i)
    ensures s[i] in SweepTo(s, i + 1)
  {
    var kept := SweepTo(s, i);
    if kept != [] {
      var j := KeptFrom(s, i, |kept| - 1);
      assert s[i].start < s[j].end ==> Overlap(s[i], s[j]);
    }
    var next := Absorb(kept, s[i]);
    assert next[|next| - 1] == s[i];
  }

  /** Neither the order of the input nor sort ties can change the score: it is that of the input. */
  lemma DedupScore(before: (Span, Span) -> bool, spans: seq<Span>, kept: seq<Span>)
    requires Deduped(before, multiset(spans), kept)
    ensures Score(kept) == Score(spans)
  {
    var sorted :| SweptFrom(before, multiset(spans), sorted, kept);
    SweepKeepsScore(sorted);
    ScoreOfPermutation(sorted, spans);
  }

  /** What overlap removal promises of non-empty spans, in either language: the spans kept are sorted by
      start, pairwise disjoint and taken from the input, and every span strictly more confident than all
      it overlaps is among them. */
  lemma DedupGuarantees(spans: seq<Span>, kept: seq<Span>)
    requires NonEmptySpans(spans)
    requires Deduped(GoBefore, multiset(spans), kept) || Deduped(PyBefore, multiset(spans), kept)
    ensures forall i, j :: 0 <= i < j < |kept| ==> kept[i].start < kept[j].start && !Overlap(kept[i], kept[j])
    ensures forall i :: 0 <= i < |kept| ==> kept[i] in spans
    ensures forall i :: 0 <= i < |spans| && Dominant(spans, i) ==> spans[i] in kept
  {
    var before := if Deduped(GoBefore, multiset(spans), kept) then GoBefore else PyBefore;
    var sorted :| SweptFrom(before, multiset(spans), sorted, kept);
    SameMembers(spans, sorted);
    assert forall i :: 0 <= i < |sorted| ==> sorted[i] in spans;
    KeptAreDisjoint(sorted);
    forall i | 0 <= i < |kept| ensures kept[i] in spans {
      var j := KeptFrom(sorted, |sorted|, i);
    }
    forall i | 0 <= i < |spans| && Dominant(spans, i) ensures spans[i] in kept {
      var k := DominantMoves(spans, sorted, i);
      DominantSurvives(sorted, k);
    }
  }

  lemma SameMembers(a: seq<Span>, b: seq<Span>)
    requires multiset(a) == multiset(b)
    ensures forall x :: x in a <==> x in b
  {
    forall x ensures x in a <==> x in b {
      assert x in a <==> x in multiset(a);
      assert x in b <==> x in multiset(b);
    }
  }

  /** A dominant span occurs once, so it is dominant in any order. */
  lemma DominantMoves(a: seq<Span>, b: seq<Span>, i: nat) returns (k: nat)
    requires multiset(a) == multiset(b) && NonEmptySpans(a) && Dominant(a, i)
    ensures Dominant(b, k) && b[k] == a[i]
  {
    SameMembers(a, b);
    assert a[i] in b;
    k :| 0 <= k < |b| && b[k] == a[i];
    forall j | 0 <= j < |b| && j != k && Overlap(b[k], b[j]) ensures b[j].confidence < b[k].confidence {
      var m := OtherPlace(a, b, i, k, j);
    }
  }

  /** Two places of b stand for two places of a. */
  lemma OtherPlace(a: seq<Span>, b: seq<Span>, i: nat, k: nat, j: nat) returns (m: nat)
    requires multiset(a) == multiset(b) && i < |a| && k < |b| && j < |b| && j != k && b[k] == a[i]
    ensures m < |a| && m != i && a[m] == b[j]
  {
    SameMembers(a, b);
    assert b[j] in a;
    m :| 0 <= m < |a| && a[m] == b[j];
    if m == i {
      PlacesAdd(b, if j < k then j else k);
      PlacesAdd(a, i);
      var lo, hi := if j < k then j else k, if j < k then k else j;
      assert b[hi] == b[lo + 1..][hi - lo - 1];
      assert a[i] in multiset(a[..i]) || a[i] in multiset(a[i + 1..]);
      if a[i] in a[..i] {
        m :| 0 <= m < i && a[..i][m] == a[i];
      } else {
        var p :| 0 <= p < |a[i + 1..]| && a[i + 1..][p] == a[i];
        m := i + 1 + p;
      }
    }
  }

  lemma PlacesAdd(s: seq<Span>, i: nat)
    requires i < |s|
    ensures multiset(s)[s[i]] == multiset(s[..i])[s[i]] + 1 + multiset(s[i + 1..])[s[i]]
  {
    assert s == s[..i] + ([s[i]] + s[i + 1..]);
  }

  /** Which of two tied spans survives does depend on the sort: Go's order leaves the end and the
      tag of equally confident spans with one start undetermined. */
  lemma TiesDecideTheSpan()
    ensures exists s, t ::
      multiset(s) == multiset(t) && SortedBy(GoBefore, s) && SortedBy(GoBefore, t) && Sweep(s) != Sweep(t)
  {
    var x, y := Span(0, 4, "x", 0.5), Span(0, 9, "y", 0.5);
    FirstOfTiedStays(x, y);
    FirstOfTiedStays(y, x);
    var s, t := [x, y], [y, x];
    assert multiset(s) == multiset(t) && SortedBy(GoBefore, s) && SortedBy(GoBefore, t) && Sweep(s) != Sweep(t);
  }

  lemma FirstOfTiedStays(x: Span, y: Span)
    requires x.start == y.start < x.end && x.confidence == y.confidence
    ensures SortedBy(GoBefore, [x, y]) && Sweep([x, y]) == [x]
  {
    var s := [x, y];
    assert SweepTo(s, 0) == [] && SweepTo(s, 1) == [x];
    assert SweepTo(s, 2) == Absorb([x], y) == [x];
  }

  ghost predicate Uncovered(s: seq<Span>, i: nat) {
    i < |s| && s[i] !in Sweep(s) && forall x :: x in Sweep(s) ==> !Overlap(s[i], x)
  }

  /** A dropped span need not overlap anything that is kept: the span that beat it may itself be
      replaced by a later one further to the right. */
  lemma DroppedMayBeUncovered()
    ensures exists s, i :: Uncovered(s, i) && SortedBy(GoBefore, s) && NonEmptySpans(s)
  {
    var s := [Span(0, 10, "a", 0.6), Span(2, 4, "b", 0.5), Span(8, 12, "c", 0.9)];
    assert SweepTo(s, 1) == [s[0]];
    assert SweepTo(s, 2) == [s[0]];
    assert SweepTo(s, 3) == [s[2]];
    assert Uncovered(s, 1);
  }
}
