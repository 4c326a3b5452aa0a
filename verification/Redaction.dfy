/** What redaction and masking hide: which bytes of a text still show in the output, and which requests
    have every byte in a chosen stretch whatever order the sort leaves ties in. */
module Redaction {
  import opened Splice
  import opened Actions

  predicate Contains(e: Edit, i: int) {
    e.start <= i < e.end
  }

  ghost predicate Chosen(picks: seq<Edit>, i: int) {
    exists k :: 0 <= k < |picks| && Contains(picks[k], i)
  }

  /** A mask shows the last four bytes of a stretch longer than that. */
  predicate Hides(e: Edit, i: int) {
    Contains(e, i) && (e.rewrite == Redact || e.end - e.start <= 4 || i < e.end - 4)
  }

  ghost predicate Hidden(picks: seq<Edit>, i: int) {
    exists k :: 0 <= k < |picks| && Hides(picks[k], i)
  }

  // ---- one byte ----

  /** Changing a byte changes the replacement of an edit only where the edit shows it. */
  lemma ReplacementOfChange(text: string, e: Edit, i: nat, c: char)
    requires 0 <= e.start <= e.end <= |text| && i < |text|
    ensures |Replacement(text[i := c], e)| == |Replacement(text, e)|
    ensures !Contains(e, i) || Hides(e, i) ==> Replacement(text[i := c], e) == Replacement(text, e)
    ensures Contains(e, i) && !Hides(e, i) ==>
      i - e.start < |Replacement(text, e)| && Replacement(text, e)[i - e.start] == text[i]
  {
    var seg, other := text[e.start..e.end], text[i := c][e.start..e.end];
    if e.rewrite == Mask && |seg| > 4 && (!Contains(e, i) || Hides(e, i)) {
      assert seg[|seg| - 4..] == other[|seg| - 4..];
    }
  }

  /** i lies in the gap before the n-th pick. */
  predicate InGap(picks: seq<Edit>, n: nat, i: int)
    requires n <= |picks|
  {
    Actions.EndAt(picks, n) <= i && (n < |picks| ==> i < picks[n].start)
  }

  /** A byte that is not chosen lies in one of the gaps. */
  lemma {:induction false} GapOf(picks: seq<Edit>, i: nat, m: nat) returns (n: nat)
    requires Actions.Disjoint(picks) && m <= |picks| && Actions.EndAt(picks, m) <= i && !Chosen(picks, i)
    ensures n <= |picks| && InGap(picks, n, i)
    decreases |picks| - m
  {
    if InGap(picks, m, i) {
      n := m;
    } else {
      assert !Contains(picks[m], i);
      n := GapOf(picks, i, m + 1);
    }
  }

  /** The output depends on a byte of the text exactly when no chosen edit hides it: it lies in no chosen
      stretch, or among the last four bytes of a masked one. */
  lemma ByteIsHidden(text: string, picks: seq<Edit>, i: nat, c: char)
    requires Actions.InRange(picks, text) && Actions.Disjoint(picks) && i < |text| && c != text[i]
    ensures Rewritten(text[i := c], picks) == Rewritten(text, picks) <==> Hidden(picks, i)
  {
    if Hidden(picks, i) {
      HiddenByte(text, picks, i, c);
    } else if k :| 0 <= k < |picks| && Contains(picks[k], i) {
      ShownByte(text, picks, i, c, k);
    } else {
      GapByte(text, picks, i, c);
    }
  }

  lemma PatchesAlign(text: string, picks: seq<Edit>, i: nat, c: char, n: nat)
    requires Actions.InRange(picks, text) && i < |text| && n <= |picks|
    ensures Shift(Patches(text, picks), n) == Shift(Patches(text[i := c], picks), n)
  {
    var ps, qs := Patches(text, picks), Patches(text[i := c], picks);
    forall k | 0 <= k < |picks|
      ensures ps[k].(filler := qs[k].filler) == qs[k] && |ps[k].filler| == |qs[k].filler|
    {
      ReplacementOfChange(text, picks[k], i, c);
    }
    ShiftAgrees(ps, qs, n);
  }

  lemma ShownByte(text: string, picks: seq<Edit>, i: nat, c: char, k: nat)
    requires Actions.InRange(picks, text) && Actions.Disjoint(picks) && i < |text| && c != text[i]
    requires k < |picks| && Contains(picks[k], i) && !Hides(picks[k], i)
    ensures Rewritten(text[i := c], picks) != Rewritten(text, picks)
  {
    var other := text[i := c];
    var j := picks[k].start + Shift(Patches(text, picks), k) + (i - picks[k].start);
    PatchesAlign(text, picks, i, c, k);
    ShownAt(text, picks, i, k, j);
    ShownAt(other, picks, i, k, j);
  }

  /** Where the output shows a byte that a mask leaves. */
  lemma ShownAt(text: string, picks: seq<Edit>, i: nat, k: nat, j: int)
    requires Actions.InRange(picks, text) && Actions.Disjoint(picks) && i < |text|
    requires k < |picks| && Contains(picks[k], i) && !Hides(picks[k], i)
    requires j == picks[k].start + Shift(Patches(text, picks), k) + (i - picks[k].start)
    ensures ByteAt(Rewritten(text, picks), j, text[i])
  {
    MaskShows(text, picks[k], i);
    ReplacementIsWritten(text, picks, k, i - picks[k].start, j);
  }

  lemma ReplacementIsWritten(text: string, picks: seq<Edit>, k: nat, o: nat, j: int)
    requires Actions.InRange(picks, text) && Actions.Disjoint(picks)
    requires k < |picks| && o < |Replacement(text, picks[k])|
    requires j == picks[k].start + Shift(Patches(text, picks), k) + o
    ensures ByteAt(Rewritten(text, picks), j, Replacement(text, picks[k])[o])
  {
    WritesByteAt(text, Patches(text, picks), k, o, j);
  }

  lemma MaskShows(text: string, e: Edit, i: nat)
    requires 0 <= e.start <= e.end <= |text| && i < |text| && Contains(e, i) && !Hides(e, i)
    ensures i - e.start < |Replacement(text, e)| && Replacement(text, e)[i - e.start] == text[i]
  {
    ReplacementOfChange(text, e, i, text[i]);
  }

  lemma GapByte(text: string, picks: seq<Edit>, i: nat, c: char)
    requires Actions.InRange(picks, text) && Actions.Disjoint(picks) && i < |text| && c != text[i]
    requires !Chosen(picks, i)
    ensures Rewritten(text[i := c], picks) != Rewritten(text, picks)
  {
    var other := text[i := c];
    var n := GapOf(picks, i, 0);
    var j := i + Shift(Patches(text, picks), n);
    PatchesAlign(text, picks, i, c, n);
    GapAt(text, picks, i, n, j);
    GapAt(other, picks, i, n, j);
  }

  /** Where the output shows a byte that is in no chosen stretch. */
  lemma GapAt(text: string, picks: seq<Edit>, i: nat, n: nat, j: int)
    requires Actions.InRange(picks, text) && Actions.Disjoint(picks) && i < |text| && n <= |picks| && InGap(picks, n, i)
    requires j == i + Shift(Patches(text, picks), n)
    ensures ByteAt(Rewritten(text, picks), j, text[i])
  {
    GapOfPatches(text, picks, i, n);
    KeepsByteAt(text, Patches(text, picks), n, i, j);
  }

  lemma GapOfPatches(text: string, picks: seq<Edit>, i: nat, n: nat)
    requires Actions.InRange(picks, text) && i < |text| && n <= |picks| && InGap(picks, n, i)
    ensures Splice.EndAt(Patches(text, picks), n) <= i < GapEnd(text, Patches(text, picks), n)
  {
  }

  lemma HiddenByte(text: string, picks: seq<Edit>, i: nat, c: char)
    requires Actions.InRange(picks, text) && Actions.Disjoint(picks) && i < |text| && Hidden(picks, i)
    ensures Rewritten(text[i := c], picks) == Rewritten(text, picks)
  {
    var other := text[i := c];
    var ps := Patches(text, picks);
    var k :| 0 <= k < |picks| && Hides(picks[k], i);
    forall m | 0 <= m < |picks| ensures Replacement(other, picks[m]) == Replacement(text, picks[m]) {
      ReplacementOfChange(text, picks[m], i, c);
      assert m < k ==> picks[m].end <= picks[k].start;
      assert m > k ==> picks[k].end <= picks[m].start;
    }
    assert Patches(other, picks) == ps;
    forall m, j | 0 <= m <= |ps| && Splice.EndAt(ps, m) <= j < GapEnd(text, ps, m) ensures text[j] == other[j] {
      GapsMissPatches(text, ps, m, k, j);
    }
    SplicedIgnores(text, other, ps);
  }

  lemma GapsMissPatches(text: string, ps: seq<Patch>, m: nat, k: nat, j: int)
    requires Splice.InRange(ps, text) && Splice.Disjoint(ps) && m <= |ps| && k < |ps|
    requires Splice.EndAt(ps, m) <= j < GapEnd(text, ps, m)
    ensures !(ps[k].start <= j < ps[k].end)
  {
    if k < m {
      assert k < m - 1 ==> ps[k].end <= ps[m - 1].start;
    } else {
      assert m < k ==> ps[m].end <= ps[k].start;
    }
  }

  // ---- requested and not chosen ----

  ghost predicate LeftOut(edits: seq<Edit>, i: int) {
    && (exists j :: 0 <= j < |edits| && Contains(edits[j], i))
    && !Chosen(Picks(edits, |edits|), i)
  }

  /** No edit reaches past q without another one taking over there. */
  ghost predicate HandedOver(edits: seq<Edit>, q: int) {
    ReachesPast(edits, q) ==> BeginsAt(edits, q)
  }

  ghost predicate ReachesPast(edits: seq<Edit>, q: int) {
    exists e :: e in edits && e.start < q < e.end
  }

  ghost predicate BeginsAt(edits: seq<Edit>, q: int) {
    exists e :: e in edits && e.start == q < e.end
  }

  lemma {:induction false} LastCovered(picks: seq<Edit>, a: int, i: int) returns (k: nat)
    requires Chosen(picks, a) && !Chosen(picks, i) && a < i
    ensures k < |picks| && a < picks[k].end <= i && !Chosen(picks, picks[k].end)
    decreases i - a
  {
    k :| 0 <= k < |picks| && Contains(picks[k], a);
    assert !Contains(picks[k], i);
    if Chosen(picks, picks[k].end) {
      k := LastCovered(picks, picks[k].end, i);
    }
  }

  /** A byte where a requested edit begins is chosen, unless the edit is empty. */
  lemma StartIsChosen(edits: seq<Edit>, j: nat)
    requires j < |edits| && ByStartEdits(edits) && 0 <= edits[0].start && edits[j].start < edits[j].end
    ensures Chosen(Picks(edits, |edits|), edits[j].start)
  {
    var k := EveryEditAnswered(edits, |edits|, j);
    assert Contains(Picks(edits, |edits|)[k], edits[j].start);
  }

  /** For every sorted list of edits: some requested byte is in no chosen stretch exactly when a chosen
      stretch ends inside a requested one and no requested one begins there. */
  lemma OverlapTailIsKept(edits: seq<Edit>, text: string)
    requires Actions.InRange(edits, text) && ByStartEdits(edits)
    ensures (exists i :: LeftOut(edits, i))
      <==> exists k :: 0 <= k < |Picks(edits, |edits|)| && !HandedOver(edits, Picks(edits, |edits|)[k].end)
  {
    var picks := Picks(edits, |edits|);
    PicksAreDisjoint(edits, text, |edits|);
    if i :| LeftOut(edits, i) {
      var j :| 0 <= j < |edits| && Contains(edits[j], i);
      StartIsChosen(edits, j);
      var k := LastCovered(picks, edits[j].start, i);
      EndNotTakenOver(edits, picks[k].end, j);
    }
    if k :| 0 <= k < |picks| && !HandedOver(edits, picks[k].end) {
      NotTakenOverIsLeftOut(edits, text, k);
    }
  }

  lemma EndNotTakenOver(edits: seq<Edit>, q: int, j: nat)
    requires ByStartEdits(edits) && j < |edits| && 0 <= edits[0].start
    requires edits[j].start < q < edits[j].end && !Chosen(Picks(edits, |edits|), q)
    ensures !HandedOver(edits, q)
  {
    assert edits[j] in edits;
    forall g | g in edits && g.start == q < g.end ensures false {
      var m :| 0 <= m < |edits| && edits[m] == g;
      StartIsChosen(edits, m);
    }
  }

  lemma NotTakenOverIsLeftOut(edits: seq<Edit>, text: string, k: nat)
    requires Actions.InRange(edits, text) && k < |Picks(edits, |edits|)|
    requires !HandedOver(edits, Picks(edits, |edits|)[k].end)
    ensures LeftOut(edits, Picks(edits, |edits|)[k].end)
  {
    var picks := Picks(edits, |edits|);
    var q := picks[k].end;
    PicksAreDisjoint(edits, text, |edits|);
    forall m | 0 <= m < |picks| ensures !Contains(picks[m], q) {
      var i := PickedFrom(edits, |edits|, m);
      assert m < k ==> picks[m].end <= picks[k].start;
      assert m > k ==> picks[k].end <= picks[m].start;
    }
  }

  /** The second of two overlapping redactions reaches past the first, and its last bytes are left. */
  lemma TailIsLeftOut()
    ensures LeftOut([Edit(0, 5, "a", Redact), Edit(3, 8, "b", Redact)], 6)
  {
    var edits := [Edit(0, 5, "a", Redact), Edit(3, 8, "b", Redact)];
    assert Picks(edits, 0) == [];
    assert Picks(edits, 1) == [edits[0]];
    assert Picks(edits, 2) == [edits[0]];
    assert Contains(edits[1], 6);
  }

  // ---- every order of the ties ----

  /** Non-empty edits within a text of length n. */
  predicate Request(edits: seq<Edit>, n: int) {
    forall i :: 0 <= i < |edits| ==> 0 <= edits[i].start < edits[i].end <= n
  }

  /** e may be the next one chosen when the cursor is at p. */
  predicate IsNext(edits: seq<Edit>, p: int, e: Edit) {
    e in edits && p <= e.start && forall x :: x in edits && p <= x.start ==> e.start <= x.start
  }

  /** From the cursor p on, whichever of the edits that begin first is chosen, what others request past
      its end is taken over there. */
  ghost predicate Safe(edits: seq<Edit>, p: int, n: int)
    requires Request(edits, n)
    decreases n - p
  {
    forall e {:trigger IsNext(edits, p, e)} :: IsNext(edits, p, e) ==>
      p < e.end && HandedOver(edits, e.end) && Safe(edits, e.end, n)
  }

  ghost predicate AllCovered(edits: seq<Edit>) {
    forall i :: !LeftOut(edits, i)
  }

  /** Where the cursor is after the first m edits. */
  function Cursor(sorted: seq<Edit>, m: nat): int
    requires m <= |sorted|
  {
    Actions.EndAt(Picks(sorted, m), |Picks(sorted, m)|)
  }

  lemma {:induction false} CursorPasses(sorted: seq<Edit>, n: int, m: nat, i: nat)
    requires Request(sorted, n) && i < m <= |sorted|
    ensures sorted[i].start < Cursor(sorted, m)
  {
    if i < m - 1 {
      CursorPasses(sorted, n, m - 1, i);
    }
  }

  lemma SameMembers(a: seq<Edit>, b: seq<Edit>)
    requires SameEdits(a, b)
    ensures forall e :: e in a <==> e in b
  {
    forall e ensures e in a <==> e in b {
      assert e in a <==> e in multiset(a);
      assert e in b <==> e in multiset(b);
    }
  }

  /** The edit chosen next is one of the first that begin at or after the cursor. */
  lemma ChosenIsNext(edits: seq<Edit>, sorted: seq<Edit>, n: int, m: nat)
    requires Request(sorted, n) && (forall e :: e in edits <==> e in sorted) && ByStartEdits(sorted)
    requires m < |sorted| && sorted[m].start >= Cursor(sorted, m)
    ensures IsNext(edits, Cursor(sorted, m), sorted[m])
  {
    assert sorted[m] in sorted;
    forall x | x in edits && Cursor(sorted, m) <= x.start ensures sorted[m].start <= x.start {
      var i :| 0 <= i < |sorted| && sorted[i] == x;
      if i < m {
        CursorPasses(sorted, n, m, i);
      }
    }
  }

  ghost predicate AllHandedOver(edits: seq<Edit>, picks: seq<Edit>) {
    forall e :: e in picks ==> HandedOver(edits, e.end)
  }

  /** What one more edit of the sorted order does to the cursor and to what is chosen. */
  lemma PickStep(sorted: seq<Edit>, m: nat)
    requires m < |sorted|
    ensures var e, ps := sorted[m], Picks(sorted, m);
      if e.start >= Cursor(sorted, m) then Picks(sorted, m + 1) == ps + [e] && Cursor(sorted, m + 1) == e.end
      else Picks(sorted, m + 1) == ps && Cursor(sorted, m + 1) == Cursor(sorted, m)
  {
  }

  lemma OneMoreHandedOver(edits: seq<Edit>, picks: seq<Edit>, e: Edit)
    requires AllHandedOver(edits, picks) && HandedOver(edits, e.end)
    ensures AllHandedOver(edits, picks + [e])
  {
  }

  /** In a sorted order of a safe request everything chosen hands over. */
  lemma {:induction false} SafePicks(edits: seq<Edit>, sorted: seq<Edit>, n: int, m: nat)
    requires Request(edits, n) && Request(sorted, n) && (forall e :: e in edits <==> e in sorted)
    requires ByStartEdits(sorted) && m <= |sorted| && Safe(edits, 0, n)
    ensures Safe(edits, Cursor(sorted, m), n) && AllHandedOver(edits, Picks(sorted, m))
  {
    if m > 0 {
      SafePicks(edits, sorted, n, m - 1);
      SafePick(edits, sorted, n, m - 1);
    }
  }

  lemma SafePick(edits: seq<Edit>, sorted: seq<Edit>, n: int, m: nat)
    requires Request(edits, n) && Request(sorted, n) && (forall e :: e in edits <==> e in sorted)
    requires ByStartEdits(sorted) && m < |sorted|
    requires Safe(edits, Cursor(sorted, m), n) && AllHandedOver(edits, Picks(sorted, m))
    ensures Safe(edits, Cursor(sorted, m + 1), n) && AllHandedOver(edits, Picks(sorted, m + 1))
  {
    PickStep(sorted, m);
    var e := sorted[m];
    if e.start >= Cursor(sorted, m) {
      ChosenIsNext(edits, sorted, n, m);
      SafeStep(edits, Cursor(sorted, m), n, e);
      OneMoreHandedOver(edits, Picks(sorted, m), e);
    }
  }

  lemma SafeStep(edits: seq<Edit>, p: int, n: int, e: Edit)
    requires Request(edits, n) && Safe(edits, p, n) && IsNext(edits, p, e)
    ensures HandedOver(edits, e.end) && Safe(edits, e.end, n)
  {
  }

  lemma UnsafeStep(edits: seq<Edit>, p: int, n: int) returns (e: Edit)
    requires Request(edits, n) && !Safe(edits, p, n)
    ensures IsNext(edits, p, e) && p < e.end <= n && (HandedOver(edits, e.end) ==> !Safe(edits, e.end, n))
  {
    e :| IsNext(edits, p, e) && !(p < e.end && HandedOver(edits, e.end) && Safe(edits, e.end, n));
  }

  // ---- an order that leaves something out ----

  /** The edits that begin in [p, q). */
  function Within(edits: seq<Edit>, p: int, q: int): seq<Edit> {
    if edits == [] then []
    else
      var rest := Within(edits[1..], p, q);
      if p <= edits[0].start < q then [edits[0]] + rest else rest
  }

  lemma {:induction false} WithinMembers(edits: seq<Edit>, p: int, q: int)
    ensures forall e :: e in Within(edits, p, q) <==> e in edits && p <= e.start < q
  {
    if edits != [] {
      WithinMembers(edits[1..], p, q);
    }
  }

  lemma {:induction false} WithinSplits(edits: seq<Edit>, p: int, q: int, r: int)
    requires p <= q <= r
    ensures multiset(Within(edits, p, r)) == multiset(Within(edits, p, q)) + multiset(Within(edits, q, r))
  {
    if edits != [] {
      WithinSplits(edits[1..], p, q, r);
    }
  }

  lemma {:induction false} WithinAll(edits: seq<Edit>, n: int)
    requires Request(edits, n)
    ensures Within(edits, 0, n) == edits
  {
    if edits != [] {
      WithinAll(edits[1..], n);
    }
  }

  /** Edits that begin at or after the last end are chosen as if alone. */
  lemma {:induction false} PicksAppend(a: seq<Edit>, b: seq<Edit>, m: nat)
    requires m <= |b| && 0 <= Cursor(a, |a|) && forall i :: 0 <= i < |b| ==> Cursor(a, |a|) <= b[i].start
    ensures Picks(a + b, |a| + m) == Picks(a, |a|) + Picks(b, m)
    ensures m > 0 ==> Picks(b, m) != []
  {
    if m == 0 {
      PicksPrefix(a, b, |a|);
    } else {
      var P, Q, e := Picks(a, |a|), Picks(b, m - 1), b[m - 1];
      PicksAppend(a, b, m - 1);
      assert (a + b)[|a| + m - 1] == e;
      CursorAppend(P, Q);
      assert Picks(a + b, |a| + m - 1) == P + Q;
      assert (P + Q) + [e] == P + (Q + [e]);
      assert e.start < Cursor(b, m - 1) <==> e.start < Cursor(a + b, |a| + m - 1);
    }
  }

  lemma CursorAppend(ps: seq<Edit>, qs: seq<Edit>)
    ensures Actions.EndAt(ps + qs, |ps + qs|) == if qs == [] then Actions.EndAt(ps, |ps|) else Actions.EndAt(qs, |qs|)
  {
    if qs == [] {
      assert ps + qs == ps;
    }
  }

  lemma {:induction false} PicksPrefix(a: seq<Edit>, b: seq<Edit>, m: nat)
    requires m <= |a|
    ensures Picks(a + b, m) == Picks(a, m)
  {
    if m > 0 {
      PicksPrefix(a, b, m - 1);
    }
  }

  /** Edits that begin before the last end are skipped. */
  lemma {:induction false} PicksSkip(a: seq<Edit>, b: seq<Edit>, m: nat)
    requires m <= |b| && forall i :: 0 <= i < |b| ==> b[i].start < Cursor(a, |a|)
    ensures Picks(a + b, |a| + m) == Picks(a, |a|)
  {
    if m == 0 {
      PicksPrefix(a, b, |a|);
    } else {
      PicksSkip(a, b, m - 1);
    }
  }

  lemma TakeOut(w: seq<Edit>, k: nat)
    requires k < |w|
    ensures multiset(w) == multiset{w[k]} + multiset(w[..k] + w[k + 1..])
  {
    assert w == w[..k] + [w[k]] + w[k + 1..];
  }

  /** The edits that begin before e ends, e first. */
  lemma FirstOf(edits: seq<Edit>, n: int, p: int, e: Edit) returns (head: seq<Edit>)
    requires Request(edits, n) && IsNext(edits, p, e) && 0 <= p
    ensures multiset(head) == multiset(Within(edits, p, e.end)) && ByStartEdits(head)
    ensures Picks(head, |head|) == [e] && forall i :: 0 <= i < |head| ==> head[i].start < e.end
  {
    var w := Within(edits, p, e.end);
    WithinMembers(edits, p, e.end);
    assert e in w;
    var k :| 0 <= k < |w| && w[k] == e;
    var tail := RestSorted(w, k, e.start, e.end);
    head := [e] + tail;
    OneThenSkipped(e, tail);
  }

  /** The rest of some edits that begin in a range, sorted. */
  lemma RestSorted(w: seq<Edit>, k: nat, lo: int, hi: int) returns (tail: seq<Edit>)
    requires k < |w| && forall i :: 0 <= i < |w| ==> lo <= w[i].start < hi
    ensures multiset([w[k]] + tail) == multiset(w) && ByStartEdits(tail)
    ensures forall i :: 0 <= i < |tail| ==> lo <= tail[i].start < hi
  {
    var rest := w[..k] + w[k + 1..];
    TakeOut(w, k);
    tail := SortEdits(rest);
    SortEditsSorts(rest);
    forall i | 0 <= i < |tail| ensures lo <= tail[i].start < hi {
      assert tail[i] in multiset(tail);
      assert tail[i] in multiset(w);
    }
  }

  lemma OneThenSkipped(e: Edit, tail: seq<Edit>)
    requires 0 <= e.start && forall i :: 0 <= i < |tail| ==> tail[i].start < e.end
    ensures Picks([e] + tail, |[e] + tail|) == [e]
  {
    assert Picks([e], 0) == [] && Picks([e], 1) == [e];
    PicksSkip([e], tail, |tail|);
  }

  lemma StartsWithin(edits: seq<Edit>, q: int, n: int, rest: seq<Edit>)
    requires multiset(rest) == multiset(Within(edits, q, n))
    ensures forall i :: 0 <= i < |rest| ==> q <= rest[i].start
  {
    WithinMembers(edits, q, n);
    SameMembers(rest, Within(edits, q, n));
    forall i | 0 <= i < |rest| ensures q <= rest[i].start {
      assert rest[i] in rest;
    }
  }

  lemma SortedConcat(a: seq<Edit>, b: seq<Edit>, q: int)
    requires ByStartEdits(a) && ByStartEdits(b)
    requires (forall i :: 0 <= i < |a| ==> a[i].start < q) && forall i :: 0 <= i < |b| ==> q <= b[i].start
    ensures ByStartEdits(a + b)
  {
  }

  /** When a request is not safe from p on, some order of the edits from p on chooses one that is not
      taken over. */
  lemma {:induction false} UnsafeOrder(edits: seq<Edit>, p: int, n: int) returns (tail: seq<Edit>, k: nat)
    requires Request(edits, n) && 0 <= p <= n && !Safe(edits, p, n)
    ensures multiset(tail) == multiset(Within(edits, p, n)) && ByStartEdits(tail)
    ensures k < |Picks(tail, |tail|)| && !HandedOver(edits, Picks(tail, |tail|)[k].end)
    decreases n - p
  {
    var e := UnsafeStep(edits, p, n);
    if HandedOver(edits, e.end) {
      var rest, m := UnsafeOrder(edits, e.end, n);
      tail := Preceded(edits, p, e, n, rest);
      k := m + 1;
    } else {
      var rest := SortEdits(Within(edits, e.end, n));
      SortEditsSorts(Within(edits, e.end, n));
      tail := Preceded(edits, p, e, n, rest);
      k := 0;
    }
  }

  /** An order of what begins at or after e's end, preceded by e and all that it covers the start of. */
  lemma Preceded(edits: seq<Edit>, p: int, e: Edit, n: int, rest: seq<Edit>) returns (tail: seq<Edit>)
    requires Request(edits, n) && IsNext(edits, p, e) && 0 <= p < e.end <= n
    requires multiset(rest) == multiset(Within(edits, e.end, n)) && ByStartEdits(rest)
    ensures multiset(tail) == multiset(Within(edits, p, n)) && ByStartEdits(tail)
    ensures Picks(tail, |tail|) == [e] + Picks(rest, |rest|)
  {
    var head := FirstOf(edits, n, p, e);
    tail := JoinedOrder(edits, p, e, n, head, rest);
  }

  /** Two sorted parts, the second beginning where the first is done. */
  lemma JoinedOrder(edits: seq<Edit>, p: int, e: Edit, n: int, head: seq<Edit>, rest: seq<Edit>)
    returns (tail: seq<Edit>)
    requires 0 <= p <= e.end <= n && multiset(head) == multiset(Within(edits, p, e.end)) && ByStartEdits(head)
    requires Picks(head, |head|) == [e] && forall i :: 0 <= i < |head| ==> head[i].start < e.end
    requires multiset(rest) == multiset(Within(edits, e.end, n)) && ByStartEdits(rest)
    ensures multiset(tail) == multiset(Within(edits, p, n)) && ByStartEdits(tail)
    ensures Picks(tail, |tail|) == [e] + Picks(rest, |rest|)
  {
    tail := head + rest;
    WithinSplits(edits, p, e.end, n);
    StartsWithin(edits, e.end, n, rest);
    SortedConcat(head, rest, e.end);
    PicksAppend(head, rest, |rest|);
  }

  /** A request of non-empty edits has every requested byte in a chosen stretch, in every order the sort
      may leave them in, exactly when it is safe, which can be decided before the text is touched. */
  lemma CoveredIffSafe(edits: seq<Edit>, text: string)
    requires Request(edits, |text|)
    ensures Safe(edits, 0, |text|)
      <==> forall sorted: seq<Edit> :: SameEdits(sorted, edits) && ByStartEdits(sorted) ==> AllCovered(sorted)
  {
    var n := |text|;
    if Safe(edits, 0, n) {
      forall sorted: seq<Edit> | SameEdits(sorted, edits) && ByStartEdits(sorted) ensures AllCovered(sorted) {
        SameMembers(sorted, edits);
        PermutedInRange(edits, sorted, text);
        forall i | 0 <= i < |sorted| ensures sorted[i].start < sorted[i].end {
          assert sorted[i] in edits;
        }
        SafePicks(edits, sorted, n, |sorted|);
        SameHandOvers(edits, sorted);
        OverlapTailIsKept(sorted, text);
      }
    } else {
      var sorted, k := UnsafeOrder(edits, 0, n);
      WithinAll(edits, n);
      SameMembers(sorted, edits);
      PermutedInRange(edits, sorted, text);
      SameHandOvers(edits, sorted);
      OverlapTailIsKept(sorted, text);
    }
  }

  lemma SameHandOvers(edits: seq<Edit>, sorted: seq<Edit>)
    requires forall e :: e in edits <==> e in sorted
    ensures forall q :: HandedOver(edits, q) <==> HandedOver(sorted, q)
  {
  }
}
