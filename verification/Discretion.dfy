/** When what some edit asks to hide is hidden in the output, whatever order the sort leaves ties in. A
    chosen mask that covers a skipped redaction still shows its last four bytes, so lying in a chosen
    stretch is not enough. */
module Discretion {
  import opened Splice
  import opened Actions
  import opened Redaction

  /** Some edit asks for the byte to be hidden. */
  ghost predicate Wanted(edits: seq<Edit>, i: int) {
    exists e :: e in edits && Hides(e, i)
  }

  ghost predicate AllHidden(edits: seq<Edit>, picks: seq<Edit>) {
    forall i :: Wanted(edits, i) ==> Hidden(picks, i)
  }

  /** No edit begins at or after p. */
  predicate Over(edits: seq<Edit>, p: int) {
    forall e :: e in edits ==> e.start < p
  }

  /** e hides what any edit asks to hide between p and its own end. */
  ghost predicate HidesFrom(edits: seq<Edit>, p: int, e: Edit) {
    forall i :: p <= i < e.end && Wanted(edits, i) ==> Hides(e, i)
  }

  /** From the cursor p on, whichever of the edits that begin first is chosen hides all that is asked for
      up to its end, and so on from there; and nothing is asked for where no edit begins any more. */
  ghost predicate Discreet(edits: seq<Edit>, p: int, n: int)
    requires Request(edits, n)
    decreases n - p
  {
    if Over(edits, p) then forall i :: p <= i ==> !Wanted(edits, i)
    else forall e {:trigger IsNext(edits, p, e)} :: IsNext(edits, p, e) ==>
      p < e.end && HidesFrom(edits, p, e) && Discreet(edits, e.end, n)
  }

  // ---- a discreet request ----

  /** All that is asked for before q is hidden. */
  ghost predicate HiddenUpTo(edits: seq<Edit>, picks: seq<Edit>, q: int) {
    forall i :: i < q && Wanted(edits, i) ==> Hidden(picks, i)
  }

  lemma DiscreetStep(edits: seq<Edit>, p: int, n: int, e: Edit)
    requires Request(edits, n) && Discreet(edits, p, n) && IsNext(edits, p, e)
    ensures HidesFrom(edits, p, e) && Discreet(edits, e.end, n)
  {
  }

  lemma OneMoreHides(edits: seq<Edit>, picks: seq<Edit>, p: int, e: Edit)
    requires HiddenUpTo(edits, picks, p) && HidesFrom(edits, p, e)
    ensures HiddenUpTo(edits, picks + [e], e.end)
  {
    var more := picks + [e];
    forall i | i < e.end && Wanted(edits, i) ensures Hidden(more, i) {
      if i < p {
        var k :| 0 <= k < |picks| && Hides(picks[k], i);
        assert more[k] == picks[k];
      } else {
        assert more[|picks|] == e;
      }
    }
  }

  lemma DiscreetPick(edits: seq<Edit>, sorted: seq<Edit>, n: int, m: nat)
    requires Request(edits, n) && Request(sorted, n) && (forall e :: e in edits <==> e in sorted)
    requires ByStartEdits(sorted) && m < |sorted|
    requires Discreet(edits, Cursor(sorted, m), n) && HiddenUpTo(edits, Picks(sorted, m), Cursor(sorted, m))
    ensures Discreet(edits, Cursor(sorted, m + 1), n)
    ensures HiddenUpTo(edits, Picks(sorted, m + 1), Cursor(sorted, m + 1))
  {
    PickStep(sorted, m);
    var e := sorted[m];
    if e.start >= Cursor(sorted, m) {
      ChosenIsNext(edits, sorted, n, m);
      DiscreetStep(edits, Cursor(sorted, m), n, e);
      OneMoreHides(edits, Picks(sorted, m), Cursor(sorted, m), e);
    }
  }

  lemma {:induction false} DiscreetPicks(edits: seq<Edit>, sorted: seq<Edit>, n: int, m: nat)
    requires Request(edits, n) && Request(sorted, n) && (forall e :: e in edits <==> e in sorted)
    requires ByStartEdits(sorted) && m <= |sorted| && Discreet(edits, 0, n)
    ensures Discreet(edits, Cursor(sorted, m), n) && HiddenUpTo(edits, Picks(sorted, m), Cursor(sorted, m))
  {
    if m > 0 {
      DiscreetPicks(edits, sorted, n, m - 1);
      DiscreetPick(edits, sorted, n, m - 1);
    }
  }

  lemma AllBeginBefore(edits: seq<Edit>, sorted: seq<Edit>, n: int)
    requires Request(sorted, n) && (forall e :: e in edits <==> e in sorted)
    ensures Over(edits, Cursor(sorted, |sorted|))
  {
    forall e | e in edits ensures e.start < Cursor(sorted, |sorted|) {
      var i :| 0 <= i < |sorted| && sorted[i] == e;
      CursorPasses(sorted, n, |sorted|, i);
    }
  }

  lemma DiscreetHidesAll(edits: seq<Edit>, sorted: seq<Edit>, n: int)
    requires Request(edits, n) && SameEdits(sorted, edits) && ByStartEdits(sorted) && Discreet(edits, 0, n)
    ensures AllHidden(edits, Picks(sorted, |sorted|))
  {
    SameMembers(sorted, edits);
    SameRequest(sorted, edits, n);
    DiscreetPicks(edits, sorted, n, |sorted|);
    AllBeginBefore(edits, sorted, n);
  }

  lemma SameRequest(sorted: seq<Edit>, edits: seq<Edit>, n: int)
    requires Request(edits, n) && forall e :: e in sorted <==> e in edits
    ensures Request(sorted, n)
  {
    forall i | 0 <= i < |sorted| ensures 0 <= sorted[i].start < sorted[i].end <= n {
      assert sorted[i] in edits;
    }
  }

  // ---- an order that shows something ----

  lemma IndiscreetStep(edits: seq<Edit>, p: int, n: int) returns (e: Edit)
    requires Request(edits, n) && !Discreet(edits, p, n) && !Over(edits, p)
    ensures IsNext(edits, p, e) && p < e.end <= n && (HidesFrom(edits, p, e) ==> !Discreet(edits, e.end, n))
  {
    e :| IsNext(edits, p, e) && !(p < e.end && HidesFrom(edits, p, e) && Discreet(edits, e.end, n));
  }

  /** Nothing chosen from edits that begin at or after q hides a byte before q. */
  lemma HidesNothingBefore(edits: seq<Edit>, q: int, n: int, rest: seq<Edit>, i: int)
    requires multiset(rest) == multiset(Within(edits, q, n)) && i < q
    ensures !Hidden(Picks(rest, |rest|), i)
  {
    StartsWithin(edits, q, n, rest);
    var picks := Picks(rest, |rest|);
    forall k | 0 <= k < |picks| ensures !Hides(picks[k], i) {
      var j := PickedFrom(rest, |rest|, k);
    }
  }

  lemma OneMoreShows(picks: seq<Edit>, e: Edit, i: int)
    requires !Hidden(picks, i) && !Hides(e, i)
    ensures !Hidden([e] + picks, i)
  {
  }

  /** When a request is not discreet from p on, some order of the edits from p on shows a byte from p on
      that is asked for. */
  lemma {:induction false} IndiscreetOrder(edits: seq<Edit>, p: int, n: int) returns (tail: seq<Edit>, i: int)
    requires Request(edits, n) && 0 <= p <= n && !Discreet(edits, p, n)
    ensures multiset(tail) == multiset(Within(edits, p, n)) && ByStartEdits(tail)
    ensures p <= i && Wanted(edits, i) && !Hidden(Picks(tail, |tail|), i)
    decreases n - p
  {
    if Over(edits, p) {
      i :| p <= i && Wanted(edits, i);
      WithinMembers(edits, p, n);
      tail := [];
      assert Within(edits, p, n) == [] by {
        assert Within(edits, p, n) != [] ==> Within(edits, p, n)[0] in Within(edits, p, n);
      }
      return;
    }
    var e := IndiscreetStep(edits, p, n);
    var rest;
    if HidesFrom(edits, p, e) {
      rest, i := IndiscreetOrder(edits, e.end, n);
    } else {
      i :| p <= i < e.end && Wanted(edits, i) && !Hides(e, i);
      rest := SortEdits(Within(edits, e.end, n));
      SortEditsSorts(Within(edits, e.end, n));
      HidesNothingBefore(edits, e.end, n, rest, i);
    }
    tail := Preceded(edits, p, e, n, rest);
    OneMoreShows(Picks(rest, |rest|), e, i);
  }

  /** Every byte that some edit asks to hide is hidden, in every order the sort may leave the edits in,
      exactly when the request is discreet, which can be decided before the text is touched. */
  lemma HiddenIffDiscreet(edits: seq<Edit>, n: nat)
    requires Request(edits, n)
    ensures Discreet(edits, 0, n) <==> forall sorted: seq<Edit> ::
      SameEdits(sorted, edits) && ByStartEdits(sorted) ==> AllHidden(edits, Picks(sorted, |sorted|))
  {
    if Discreet(edits, 0, n) {
      forall sorted: seq<Edit> | SameEdits(sorted, edits) && ByStartEdits(sorted)
        ensures AllHidden(edits, Picks(sorted, |sorted|))
      {
        DiscreetHidesAll(edits, sorted, n);
      }
    } else {
      var sorted, i := IndiscreetOrder(edits, 0, n);
      WithinAll(edits, n);
      assert !AllHidden(edits, Picks(sorted, |sorted|));
    }
  }

  // ---- empty edits ----

  predicate IsEmpty(e: Edit) {
    e.start >= e.end
  }

  function NonEmpty(edits: seq<Edit>): seq<Edit> {
    if edits == [] then []
    else if IsEmpty(edits[0]) then NonEmpty(edits[1..])
    else [edits[0]] + NonEmpty(edits[1..])
  }

  function Empties(edits: seq<Edit>): seq<Edit> {
    if edits == [] then []
    else if IsEmpty(edits[0]) then [edits[0]] + Empties(edits[1..])
    else Empties(edits[1..])
  }

  lemma {:induction false} NonEmptyMembers(edits: seq<Edit>)
    ensures forall e :: e in NonEmpty(edits) <==> e in edits && !IsEmpty(e)
    ensures forall e :: e in Empties(edits) <==> e in edits && IsEmpty(e)
    ensures multiset(edits) == multiset(Empties(edits)) + multiset(NonEmpty(edits))
  {
    if edits != [] {
      NonEmptyMembers(edits[1..]);
      assert edits == [edits[0]] + edits[1..];
    }
  }

  lemma NonEmptyRequest(edits: seq<Edit>, text: string)
    requires Actions.InRange(edits, text)
    ensures Request(NonEmpty(edits), |text|)
  {
    NonEmptyMembers(edits);
    var s := NonEmpty(edits);
    forall i | 0 <= i < |s| ensures 0 <= s[i].start < s[i].end <= |text| {
      assert s[i] in s;
    }
  }

  lemma {:induction false} NonEmptySnoc(edits: seq<Edit>, e: Edit)
    ensures NonEmpty(edits + [e]) == if IsEmpty(e) then NonEmpty(edits) else NonEmpty(edits) + [e]
  {
    if edits == [] {
      assert edits + [e] == [e] && [e][1..] == [];
    } else {
      assert (edits + [e])[1..] == edits[1..] + [e];
      NonEmptySnoc(edits[1..], e);
    }
  }

  lemma {:induction false} NonEmptySorted(edits: seq<Edit>)
    requires ByStartEdits(edits)
    ensures ByStartEdits(NonEmpty(edits))
  {
    if edits != [] {
      NonEmptySorted(edits[1..]);
      NonEmptyMembers(edits[1..]);
      var rest := NonEmpty(edits[1..]);
      forall i | 0 <= i < |rest| ensures edits[0].start <= rest[i].start {
        assert rest[i] in edits[1..];
      }
    }
  }

  /** The same edits without the empty ones. */
  lemma NonEmptySame(a: seq<Edit>, b: seq<Edit>)
    requires SameEdits(a, b)
    ensures SameEdits(NonEmpty(a), NonEmpty(b))
  {
    forall e ensures multiset(NonEmpty(a))[e] == multiset(NonEmpty(b))[e] {
      NonEmptyCount(a, e);
      NonEmptyCount(b, e);
    }
  }

  lemma NonEmptyCount(edits: seq<Edit>, e: Edit)
    ensures multiset(NonEmpty(edits))[e] == if IsEmpty(e) then 0 else multiset(edits)[e]
  {
    NonEmptyMembers(edits);
    assert e in multiset(Empties(edits)) <==> e in Empties(edits);
    assert e in multiset(NonEmpty(edits)) <==> e in NonEmpty(edits);
  }

  /** Empty edits, chosen or not, never change which of the others are chosen. */
  lemma {:induction false} PicksOfNonEmpty(sorted: seq<Edit>, n: nat)
    requires n <= |sorted| && ByStartEdits(sorted)
    requires forall i :: 0 <= i < |sorted| ==> 0 <= sorted[i].start <= sorted[i].end
    ensures var s := NonEmpty(sorted[..n]);
      && NonEmpty(Picks(sorted, n)) == Picks(s, |s|)
      && (Cursor(sorted, n) == Cursor(s, |s|)
        || (n > 0 && Cursor(s, |s|) <= Cursor(sorted, n) <= sorted[n - 1].start))
  {
    if n == 0 {
      assert sorted[..0] == [];
    } else {
      PicksOfNonEmpty(sorted, n - 1);
      var e, s := sorted[n - 1], NonEmpty(sorted[..n - 1]);
      assert sorted[..n] == sorted[..n - 1] + [e];
      NonEmptySnoc(sorted[..n - 1], e);
      NonEmptySnoc(Picks(sorted, n - 1), e);
      PickStep(sorted, n - 1);
      if !IsEmpty(e) {
        PicksPrefix(s, [e], |s|);
        PickStep(s + [e], |s|);
      }
    }
  }

  lemma NonEmptyHides(edits: seq<Edit>, i: int)
    ensures Wanted(NonEmpty(edits), i) <==> Wanted(edits, i)
    ensures Hidden(NonEmpty(edits), i) <==> Hidden(edits, i)
  {
    NonEmptyMembers(edits);
    HiddenByMember(edits, i);
    HiddenByMember(NonEmpty(edits), i);
  }

  lemma HiddenByMember(edits: seq<Edit>, i: int)
    ensures Hidden(edits, i) <==> Wanted(edits, i)
  {
    if Hidden(edits, i) {
      var k :| 0 <= k < |edits| && Hides(edits[k], i);
      assert edits[k] in edits;
    }
  }

  lemma {:induction false} InsertEmpty(e: Edit, s: seq<Edit>)
    requires IsEmpty(e)
    ensures NonEmpty(InsertEdit(e, s)) == NonEmpty(s)
  {
    if s == [] || e.start <= s[0].start {
      assert ([e] + s)[1..] == s;
    } else {
      InsertEmpty(e, s[1..]);
      var t := InsertEdit(e, s[1..]);
      assert ([s[0]] + t)[1..] == t;
    }
  }

  /** Any order of the non-empty edits comes from an order of all of them. */
  lemma {:induction false} WithEmpties(a: seq<Edit>, t: seq<Edit>) returns (sorted: seq<Edit>)
    requires ByStartEdits(t) && forall i :: 0 <= i < |a| ==> IsEmpty(a[i])
    ensures ByStartEdits(sorted) && multiset(sorted) == multiset(a) + multiset(t) && NonEmpty(sorted) == NonEmpty(t)
  {
    if a == [] {
      sorted := t;
    } else {
      var rest := WithEmpties(a[1..], t);
      assert a == [a[0]] + a[1..];
      sorted := InsertEdit(a[0], rest);
      InsertEditSorts(a[0], rest);
      InsertEmpty(a[0], rest);
    }
  }

  // ---- the output ----

  /** Writing another byte in its place gives the same output. */
  ghost predicate Unseen(text: string, picks: seq<Edit>, i: nat, c: char)
    requires Actions.InRange(picks, text) && Actions.Disjoint(picks) && i < |text|
  {
    Rewritten(text[i := c], picks) == Rewritten(text, picks)
  }

  /** The output with these edits chosen does not depend on any byte that was asked to be hidden. */
  ghost predicate Keeps(text: string, edits: seq<Edit>, picks: seq<Edit>) {
    && Actions.InRange(picks, text) && Actions.Disjoint(picks)
    && forall i, c :: 0 <= i < |text| && Wanted(edits, i) ==> Unseen(text, picks, i, c)
  }

  lemma KeepsIffHidden(text: string, edits: seq<Edit>, picks: seq<Edit>)
    requires Actions.InRange(picks, text) && Actions.Disjoint(picks) && Actions.InRange(edits, text)
    ensures Keeps(text, edits, picks) <==> AllHidden(edits, picks)
  {
    if AllHidden(edits, picks) {
      forall i, c | 0 <= i < |text| && Wanted(edits, i) ensures Unseen(text, picks, i, c) {
        if c == text[i] {
          assert text[i := c] == text;
        } else {
          ByteIsHidden(text, picks, i, c);
        }
      }
    }
    if Keeps(text, edits, picks) {
      forall i | Wanted(edits, i) ensures Hidden(picks, i) {
        var e :| e in edits && Hides(e, i);
        var c := if text[i] == 'a' then 'b' else 'a';
        assert Unseen(text, picks, i, c);
        ByteIsHidden(text, picks, i, c);
      }
    }
  }

  ghost predicate KeptInEveryOrder(text: string, edits: seq<Edit>) {
    forall sorted: seq<Edit> :: SameEdits(sorted, edits) && ByStartEdits(sorted) ==>
      Keeps(text, edits, Picks(sorted, |sorted|))
  }

  lemma OrderHides(text: string, edits: seq<Edit>, sorted: seq<Edit>)
    requires Actions.InRange(edits, text) && SameEdits(sorted, edits) && ByStartEdits(sorted)
    ensures var s := NonEmpty(sorted);
      Keeps(text, edits, Picks(sorted, |sorted|)) <==> AllHidden(NonEmpty(edits), Picks(s, |s|))
  {
    PermutedInRange(edits, sorted, text);
    PicksAreDisjoint(sorted, text, |sorted|);
    KeepsIffHidden(text, edits, Picks(sorted, |sorted|));
    PicksOfNonEmpty(sorted, |sorted|);
    assert sorted[..|sorted|] == sorted;
    forall i ensures Wanted(NonEmpty(edits), i) <==> Wanted(edits, i) {
      NonEmptyHides(edits, i);
    }
    forall i ensures Hidden(NonEmpty(Picks(sorted, |sorted|)), i) <==> Hidden(Picks(sorted, |sorted|), i) {
      NonEmptyHides(Picks(sorted, |sorted|), i);
    }
  }

  /** In every order the sort may leave the edits in, the output is free of every byte that some edit asks
      to hide, exactly when the request without its empty edits is discreet. */
  lemma KeptIffDiscreet(text: string, edits: seq<Edit>)
    requires Actions.InRange(edits, text)
    ensures Request(NonEmpty(edits), |text|)
    ensures KeptInEveryOrder(text, edits) <==> Discreet(NonEmpty(edits), 0, |text|)
  {
    NonEmptyRequest(edits, text);
    var some := NonEmpty(edits);
    HiddenIffDiscreet(some, |text|);
    if Discreet(some, 0, |text|) {
      forall sorted: seq<Edit> | SameEdits(sorted, edits) && ByStartEdits(sorted)
        ensures Keeps(text, edits, Picks(sorted, |sorted|))
      {
        OrderHides(text, edits, sorted);
        NonEmptySame(sorted, edits);
        NonEmptySorted(sorted);
      }
    } else {
      var t: seq<Edit> :| SameEdits(t, some) && ByStartEdits(t) && !AllHidden(some, Picks(t, |t|));
      ShowingOrder(text, edits, t);
    }
  }

  lemma {:induction false} NoneEmpty(t: seq<Edit>)
    requires forall e :: e in t ==> !IsEmpty(e)
    ensures NonEmpty(t) == t
  {
    if t != [] {
      NoneEmpty(t[1..]);
    }
  }

  lemma ShowingOrder(text: string, edits: seq<Edit>, t: seq<Edit>)
    requires Actions.InRange(edits, text) && SameEdits(t, NonEmpty(edits)) && ByStartEdits(t)
    requires !AllHidden(NonEmpty(edits), Picks(t, |t|))
    ensures !KeptInEveryOrder(text, edits)
  {
    NonEmptyMembers(edits);
    SameMembers(t, NonEmpty(edits));
    NoneEmpty(t);
    var a := Empties(edits);
    forall i | 0 <= i < |a| ensures IsEmpty(a[i]) {
      assert a[i] in a;
    }
    var sorted := WithEmpties(a, t);
    OrderHides(text, edits, sorted);
  }

  // ---- two requests that show what they ask to hide ----

  const MASK := Edit(0, 10, "a", Mask)
  const INSIDE := Edit(2, 10, "b", Redact)
  const OVER := Edit(0, 10, "b", Redact)

  lemma FirstAlone(x: Edit, y: Edit)
    requires 0 <= x.start <= y.start < x.end
    ensures Picks([x, y], 2) == [x]
  {
    assert Picks([x, y], 0) == [] && Picks([x, y], 1) == [x];
  }

  lemma MaskShowsTheEnd(e: Edit)
    requires e == INSIDE || e == OVER
    ensures Wanted([MASK, e], 8) && !Hidden([MASK], 8)
  {
    assert [MASK, e][1] == e && Hides(e, 8) && !Hides(MASK, 8);
  }

  /** No two of these begin together: the mask is chosen, and the redaction inside it is skipped though the
      mask shows its last four bytes. Every byte asked for lies in a chosen stretch. */
  lemma MaskAnswersForRedaction()
    ensures var edits := [MASK, INSIDE];
      Safe(edits, 0, 10) && Picks(edits, 2) == [MASK] && !AllHidden(edits, Picks(edits, 2)) && !Discreet(edits, 0, 10)
  {
    var edits := [MASK, INSIDE];
    FirstAlone(MASK, INSIDE);
    MaskShowsTheEnd(INSIDE);
    HiddenIffDiscreet(edits, 10);
    MaskIsSafe();
    assert ByStartEdits(edits) && SameEdits(edits, edits);
  }

  lemma MaskIsSafe()
    ensures Safe([MASK, INSIDE], 0, 10)
  {
    var edits := [MASK, INSIDE];
    forall e | IsNext(edits, 0, e) ensures e == MASK {
      assert edits[0] in edits;
    }
    assert Safe(edits, 10, 10);
  }

  /** With equal starts the sort decides whether the mask or the redaction is chosen. */
  lemma TieDecidesWhatIsShown()
    ensures SameEdits([OVER, MASK], [MASK, OVER]) && ByStartEdits([OVER, MASK]) && ByStartEdits([MASK, OVER])
    ensures Safe([OVER, MASK], 0, 10)
    ensures AllHidden([OVER, MASK], Picks([OVER, MASK], 2)) && !AllHidden([MASK, OVER], Picks([MASK, OVER], 2))
  {
    FirstAlone(MASK, OVER);
    FirstAlone(OVER, MASK);
    MaskShowsTheEnd(OVER);
    assert Safe([OVER, MASK], 10, 10);
    assert [OVER][0] == OVER;
  }
}
