/** When every span that overlap removal drops is covered by one it keeps, whatever the confidences. */
module SpanCover {
  import opened Spans

  ghost predicate OverlapTransitive(s: seq<Span>) {
    forall i, j, k :: 0 <= i < |s| && 0 <= j < |s| && 0 <= k < |s| && Overlap(s[i], s[j]) && Overlap(s[j], s[k]) ==>
      Overlap(s[i], s[k])
  }

  ghost predicate Covered(x: Span, kept: seq<Span>) {
    exists k :: 0 <= k < |kept| && Overlap(x, kept[k])
  }

  ghost predicate AllCovered(given: seq<Span>, kept: seq<Span>) {
    forall i :: 0 <= i < |given| ==> Covered(given[i], kept)
  }

  /** The same intervals with other confidences. */
  function Rated(s: seq<Span>, ratings: seq<real>): (r: seq<Span>)
    requires |ratings| == |s|
    ensures |r| == |s| && forall i :: 0 <= i < |s| ==> r[i] == s[i].(confidence := ratings[i])
  {
    seq(|s|, i requires 0 <= i < |s| => s[i].(confidence := ratings[i]))
  }

  // ---- transitive overlap ----

  lemma {:induction false} TransitiveCovers(s: seq<Span>, n: nat)
    requires n <= |s| && NonEmptySpans(s) && ByStart(s) && OverlapTransitive(s)
    ensures AllCovered(s[..n], SweepTo(s, n))
  {
    if n > 0 {
      TransitiveCovers(s, n - 1);
      forall i | 0 <= i < n ensures Covered(s[i], SweepTo(s, n)) {
        StillCovered(s, n, i);
      }
    }
  }

  lemma StillCovered(s: seq<Span>, n: nat, i: nat)
    requires i < n <= |s| && NonEmptySpans(s) && ByStart(s) && OverlapTransitive(s)
    requires AllCovered(s[..n - 1], SweepTo(s, n - 1))
    ensures Covered(s[i], SweepTo(s, n))
  {
    var kept, now, x := SweepTo(s, n - 1), SweepTo(s, n), s[n - 1];
    if i == n - 1 {
      if now == kept {
        assert Overlap(x, kept[|kept| - 1]) by {
          var j := KeptFrom(s, n - 1, |kept| - 1);
        }
      } else {
        assert now[|now| - 1] == x && Overlap(x, x);
      }
    } else {
      assert s[..n - 1][i] == s[i];
      var k :| 0 <= k < |kept| && Overlap(s[i], kept[k]);
      if k < |now| && now[k] == kept[k] {
        assert Overlap(s[i], now[k]);
      } else {
        var j := KeptFrom(s, n - 1, k);
        assert now[k] == x && Overlap(kept[k], x);
      }
    }
  }

  // ---- an assignment that uncovers a span ----

  /** x, then y, then z more confident than all others; x overlaps y, y overlaps z, and x ends before z. */
  ghost predicate Staircase(s: seq<Span>, p: nat, q: nat, r: nat) {
    && p < |s| && q < |s| && r < |s|
    && s[p].confidence == 0.5 && s[q].confidence == 0.75 && s[r].confidence == 1.0
    && (forall i :: 0 <= i < |s| && i != p && i != q && i != r ==> s[i].confidence == 0.25)
    && Overlap(s[p], s[q]) && Overlap(s[q], s[r]) && s[p].end <= s[r].start
  }

  /** The last span kept is x, and those before it end before it begins. */
  ghost predicate LastIs(kept: seq<Span>, x: Span) {
    && kept != [] && kept[|kept| - 1] == x
    && forall k :: 0 <= k < |kept| - 1 ==> kept[k].end <= x.start
  }

  /** A span more confident than the last one kept is now the last. */
  lemma MoreConfidentIsLast(s: seq<Span>, n: nat)
    requires n < |s| && NonEmptySpans(s) && ByStart(s)
    requires SweepTo(s, n) != [] ==> SweepTo(s, n)[|SweepTo(s, n)| - 1].confidence < s[n].confidence
    ensures LastIs(SweepTo(s, n + 1), s[n])
  {
    LadderTo(s, n);
    LadderTo(s, n + 1);
  }

  /** Spans that begin inside the last one and are no more confident are skipped. */
  lemma {:induction false} LastStays(s: seq<Span>, n: nat, m: nat)
    requires n <= m <= |s| && SweepTo(s, n) != []
    requires var x := SweepTo(s, n)[|SweepTo(s, n)| - 1];
      forall i :: n <= i < m ==> s[i].start < x.end && s[i].confidence <= x.confidence
    ensures SweepTo(s, m) == SweepTo(s, n)
  {
    if n < m {
      LastStays(s, n, m - 1);
    }
  }

  lemma LastConfidence(s: seq<Span>, n: nat, c: real)
    requires n <= |s| && forall i :: 0 <= i < n ==> s[i].confidence < c
    ensures SweepTo(s, n) != [] ==> SweepTo(s, n)[|SweepTo(s, n)| - 1].confidence < c
  {
    if SweepTo(s, n) != [] {
      var j := KeptFrom(s, n, |SweepTo(s, n)| - 1);
    }
  }

  lemma StairsAreInOrder(s: seq<Span>, p: nat, q: nat, r: nat)
    requires Staircase(s, p, q, r) && NonEmptySpans(s) && SortedBy(GoBefore, s)
    ensures p < r && q < r && forall i :: 0 <= i <= r ==> s[i].start <= s[r].start
  {
    assert r < p ==> GoBefore(s[r], s[p]);
    assert r < q ==> GoBefore(s[r], s[q]);
    forall i | 0 <= i < r ensures s[i].start <= s[r].start {
      assert GoBefore(s[i], s[r]);
    }
  }

  /** Nothing kept overlaps x but the last one. */
  ghost predicate OnlyLastMeets(kept: seq<Span>, x: Span) {
    forall k :: 0 <= k < |kept| - 1 ==> kept[k].end <= x.start
  }

  lemma SortedByStart(s: seq<Span>)
    requires SortedBy(GoBefore, s)
    ensures ByStart(s)
  {
    forall i, j | 0 <= i < j < |s| ensures s[i].start <= s[j].start {
      assert GoBefore(s[i], s[j]);
    }
  }

  /** x before y: x becomes the last, and stays so until y is read. */
  lemma LowerIsLast(s: seq<Span>, p: nat, q: nat, r: nat)
    requires Staircase(s, p, q, r) && NonEmptySpans(s) && ByStart(s) && p < q < r
    ensures LastIs(SweepTo(s, q), s[p])
  {
    LastConfidence(s, p, s[p].confidence);
    MoreConfidentIsLast(s, p);
    forall i | p + 1 <= i < q ensures s[i].start < s[p].end && s[i].confidence <= s[p].confidence {
      assert s[i].start <= s[q].start;
    }
    LastStays(s, p + 1, q);
  }

  /** A more confident span that begins inside the last one takes its place. */
  lemma TakesThePlace(kept: seq<Span>, x: Span, y: Span)
    requires LastIs(kept, x) && x.start <= y.start < x.end && x.confidence < y.confidence
    ensures LastIs(Absorb(kept, y), y) && OnlyLastMeets(Absorb(kept, y), x)
  {
  }

  lemma LowerFirst(s: seq<Span>, p: nat, q: nat, r: nat)
    requires Staircase(s, p, q, r) && NonEmptySpans(s) && ByStart(s) && p < q < r
    ensures LastIs(SweepTo(s, q + 1), s[q]) && OnlyLastMeets(SweepTo(s, q + 1), s[p])
  {
    LowerIsLast(s, p, q, r);
    assert s[p].start <= s[q].start;
    TakesThePlace(SweepTo(s, q), s[p], s[q]);
  }

  /** y before x: y becomes the last, over all that overlaps x's start. */
  lemma UpperFirst(s: seq<Span>, p: nat, q: nat, r: nat)
    requires Staircase(s, p, q, r) && NonEmptySpans(s) && ByStart(s) && q < p < r
    ensures LastIs(SweepTo(s, q + 1), s[q]) && OnlyLastMeets(SweepTo(s, q + 1), s[p])
  {
    LastConfidence(s, q, s[q].confidence);
    MoreConfidentIsLast(s, q);
    assert s[q].start <= s[p].start;
  }

  /** Just before z is read, y is the last kept, and nothing kept overlaps x but y. */
  lemma BeforeTheLast(s: seq<Span>, p: nat, q: nat, r: nat)
    requires Staircase(s, p, q, r) && NonEmptySpans(s) && SortedBy(GoBefore, s)
    ensures p < r && q < r
    ensures LastIs(SweepTo(s, r), s[q]) && OnlyLastMeets(SweepTo(s, r), s[p])
  {
    SortedByStart(s);
    StairsAreInOrder(s, p, q, r);
    if p < q {
      LowerFirst(s, p, q, r);
    } else {
      UpperFirst(s, p, q, r);
    }
    forall i | q + 1 <= i < r ensures s[i].start < s[q].end && s[i].confidence <= s[q].confidence {
      assert s[i].start <= s[r].start;
    }
    LastStays(s, q + 1, r);
  }

  /** From z on, what is kept further to the right never reaches back to x. */
  lemma {:induction false} AfterTheLast(s: seq<Span>, p: nat, q: nat, r: nat, n: nat)
    requires Staircase(s, p, q, r) && NonEmptySpans(s) && SortedBy(GoBefore, s) && r < n <= |s|
    ensures forall k :: 0 <= k < |SweepTo(s, n)| ==>
      SweepTo(s, n)[k].end <= s[p].start || s[r].start <= SweepTo(s, n)[k].start
  {
    BeforeTheLast(s, p, q, r);
    if n == r + 1 {
      MoreConfidentIsLast(s, r);
    } else {
      AfterTheLast(s, p, q, r, n - 1);
      assert GoBefore(s[r], s[n - 1]);
    }
  }

  lemma StaircaseUncovers(s: seq<Span>, p: nat, q: nat, r: nat)
    requires Staircase(s, p, q, r) && NonEmptySpans(s) && SortedBy(GoBefore, s)
    ensures !Covered(s[p], Sweep(s))
  {
    AfterTheLast(s, p, q, r, |s|);
  }

  lemma PlaceOf(a: seq<Span>, b: seq<Span>, i: nat) returns (k: nat)
    requires multiset(a) == multiset(b) && i < |a|
    ensures k < |b| && b[k] == a[i]
  {
    SameMembers(a, b);
    assert a[i] in b;
    k :| 0 <= k < |b| && b[k] == a[i];
  }

  function Ratings(n: nat, i: nat, j: nat, k: nat): (r: seq<real>)
    ensures |r| == n
  {
    seq(n, m => if m == i then 0.5 else if m == j then 0.75 else if m == k then 1.0 else 0.25)
  }

  lemma GoBeforeIsTotal()
    ensures TotalOrder(GoBefore)
  {
  }

  /** Sorting keeps the staircase. */
  lemma SortedStaircase(s: seq<Span>, i: nat, j: nat, k: nat) returns (sorted: seq<Span>, p: nat, q: nat, r: nat)
    requires NonEmptySpans(s) && Staircase(s, i, j, k)
    ensures multiset(sorted) == multiset(s) && SortedBy(GoBefore, sorted) && NonEmptySpans(sorted)
    ensures Staircase(sorted, p, q, r) && sorted[p] == s[i]
  {
    GoBeforeIsTotal();
    SortIsSorted(GoBefore, s);
    sorted := Sort(GoBefore, s);
    SameMembers(s, sorted);
    forall t | 0 <= t < |sorted| ensures sorted[t].start < sorted[t].end {
      assert sorted[t] in s;
    }
    p := PlaceOf(s, sorted, i);
    q := PlaceOf(s, sorted, j);
    r := PlaceOf(s, sorted, k);
    forall t | 0 <= t < |sorted| && t != p && t != q && t != r ensures sorted[t].confidence == 0.25 {
      var a := OtherPlace(s, sorted, i, p, t);
      var b := OtherPlace(s, sorted, j, q, t);
      var c := OtherPlace(s, sorted, k, r, t);
    }
  }

  /** For fixed non-empty intervals every dropped span overlaps a kept one, whatever the confidences and
      the order of ties, exactly when overlap is transitive on them. (A kept span overlaps itself.) */
  lemma DroppedAreCoveredIff(s: seq<Span>)
    requires NonEmptySpans(s)
    ensures OverlapTransitive(s) <==> forall ratings: seq<real>, kept ::
      |ratings| == |s| && Deduped(GoBefore, multiset(Rated(s, ratings)), kept) ==> AllCovered(s, kept)
  {
    if OverlapTransitive(s) {
      forall ratings: seq<real>, kept | |ratings| == |s| && Deduped(GoBefore, multiset(Rated(s, ratings)), kept)
        ensures AllCovered(s, kept)
      {
        TransitiveCoversAll(s, ratings, kept);
      }
    } else {
      var i, j, k :| 0 <= i < |s| && 0 <= j < |s| && 0 <= k < |s| && Overlap(s[i], s[j]) && Overlap(s[j], s[k])
        && !Overlap(s[i], s[k]);
      if s[i].end <= s[k].start {
        var ratings, kept := Uncover(s, i, j, k);
      } else {
        var ratings, kept := Uncover(s, k, j, i);
      }
    }
  }

  lemma Uncover(s: seq<Span>, i: nat, j: nat, k: nat) returns (ratings: seq<real>, kept: seq<Span>)
    requires NonEmptySpans(s) && i < |s| && j < |s| && k < |s|
    requires Overlap(s[i], s[j]) && Overlap(s[j], s[k]) && s[i].end <= s[k].start
    ensures |ratings| == |s| && Deduped(GoBefore, multiset(Rated(s, ratings)), kept) && !AllCovered(s, kept)
  {
    ratings := Ratings(|s|, i, j, k);
    var rated := Rated(s, ratings);
    var sorted, p, q, r := SortedStaircase(rated, i, j, k);
    StaircaseUncovers(sorted, p, q, r);
    kept := Sweep(sorted);
    assert SweptFrom(GoBefore, multiset(rated), sorted, kept);
  }

  lemma TransitiveCoversAll(s: seq<Span>, ratings: seq<real>, kept: seq<Span>)
    requires NonEmptySpans(s) && OverlapTransitive(s) && |ratings| == |s|
    requires Deduped(GoBefore, multiset(Rated(s, ratings)), kept)
    ensures AllCovered(s, kept)
  {
    var rated := Rated(s, ratings);
    var sorted :| SweptFrom(GoBefore, multiset(rated), sorted, kept);
    SameIntervals(s, rated, sorted);
    TransitiveCovers(sorted, |sorted|);
    assert sorted[..|sorted|] == sorted;
    forall i | 0 <= i < |s| ensures Covered(s[i], kept) {
      var t := PlaceOf(rated, sorted, i);
      assert Covered(sorted[t], kept);
      var k :| 0 <= k < |kept| && Overlap(sorted[t], kept[k]);
      assert Overlap(s[i], kept[k]);
    }
  }

  lemma SameIntervals(s: seq<Span>, rated: seq<Span>, sorted: seq<Span>)
    requires NonEmptySpans(s) && OverlapTransitive(s) && |rated| == |s| && multiset(rated) == multiset(sorted)
    requires forall i :: 0 <= i < |s| ==> rated[i].start == s[i].start && rated[i].end == s[i].end
    ensures NonEmptySpans(sorted) && OverlapTransitive(sorted)
  {
    forall i | 0 <= i < |sorted| ensures sorted[i].start < sorted[i].end {
      var a := PlaceOf(sorted, rated, i);
    }
    forall i, j, k | 0 <= i < |sorted| && 0 <= j < |sorted| && 0 <= k < |sorted| && Overlap(sorted[i], sorted[j])
      && Overlap(sorted[j], sorted[k]) ensures Overlap(sorted[i], sorted[k])
    {
      var a := PlaceOf(sorted, rated, i);
      var b := PlaceOf(sorted, rated, j);
      var c := PlaceOf(sorted, rated, k);
      assert Overlap(s[a], s[b]) && Overlap(s[b], s[c]);
    }
  }
}
