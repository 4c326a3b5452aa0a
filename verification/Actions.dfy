/** Applying on_fail actions: spans of failing guards are rewritten in one left-to-right pass. */
module Actions {
  import opened Spans
  import opened Splice

  datatype Guard = Guard(onFail: string, shadow: bool)

  datatype Outcome = Outcome(guard: Guard, verdict: string, spans: seq<Span>)

  datatype Rewrite = Redact | Mask

  datatype Edit = Edit(start: int, end: int, tag: string, rewrite: Rewrite)

  // ---- collecting edits and actions ----

  predicate Acts(oc: Outcome) {
    oc.verdict == "FAIL" && !oc.guard.shadow
  }

  predicate IsBlock(action: string) {
    action == "block" || action == "block_and_explain"
  }

  function EditsOfSpans(spans: seq<Span>, rewrite: Rewrite, n: nat): seq<Edit>
    requires n <= |spans|
  {
    if n == 0 then [] else
      var s := spans[n - 1];
      EditsOfSpans(spans, rewrite, n - 1) + [Edit(s.start, s.end, s.tag, rewrite)]
  }

  function EditsOf(oc: Outcome): seq<Edit> {
    if !Acts(oc) then []
    else if oc.guard.onFail == "redact" then EditsOfSpans(oc.spans, Redact, |oc.spans|)
    else if oc.guard.onFail == "mask" then EditsOfSpans(oc.spans, Mask, |oc.spans|)
    else []
  }

  function ActionsOf(oc: Outcome): seq<string> {
    var a := oc.guard.onFail;
    if !Acts(oc) then []
    else if IsBlock(a) || a == "redact" || a == "mask" || a == "flag" then [a]
    else if a == "reask" || a == "rewrite" then [a + ":deferred"]
    else []
  }

  function Edits(ocs: seq<Outcome>, n: nat): seq<Edit>
    requires n <= |ocs|
  {
    if n == 0 then [] else Edits(ocs, n - 1) + EditsOf(ocs[n - 1])
  }

  function ActionList(ocs: seq<Outcome>, n: nat): seq<string>
    requires n <= |ocs|
  {
    if n == 0 then [] else ActionList(ocs, n - 1) + ActionsOf(ocs[n - 1])
  }

  ghost predicate Blocks(ocs: seq<Outcome>, n: nat)
    requires n <= |ocs|
  {
    exists i :: 0 <= i < n && Acts(ocs[i]) && IsBlock(ocs[i].guard.onFail)
  }

  // ---- choosing edits ----

  function EndAt(picks: seq<Edit>, n: nat): int
    requires n <= |picks|
  {
    if n == 0 then 0 else picks[n - 1].end
  }

  /** The edits kept after looking at the first n: one that starts before the last kept one ends is skipped. */
  function Picks(edits: seq<Edit>, n: nat): seq<Edit>
    requires n <= |edits|
  {
    if n == 0 then [] else
      var ps := Picks(edits, n - 1);
      if edits[n - 1].start < EndAt(ps, |ps|) then ps else ps + [edits[n - 1]]
  }

  ghost predicate InRange(edits: seq<Edit>, text: string) {
    forall i :: 0 <= i < |edits| ==> 0 <= edits[i].start <= edits[i].end <= |text|
  }

  ghost predicate ByStartEdits(edits: seq<Edit>) {
    forall i, j :: 0 <= i < j < |edits| ==> edits[i].start <= edits[j].start
  }

  /** Left to right and disjoint. */
  ghost predicate Disjoint(picks: seq<Edit>) {
    forall i, j :: 0 <= i < j < |picks| ==> picks[i].end <= picks[j].start
  }

  /** Every chosen edit was requested. */
  lemma {:induction false} PickedFrom(edits: seq<Edit>, n: nat, k: nat) returns (i: nat)
    requires n <= |edits| && k < |Picks(edits, n)|
    ensures i < n && edits[i] == Picks(edits, n)[k]
  {
    if Picks(edits, n)[k] == edits[n - 1] {
      i := n - 1;
    } else {
      i := PickedFrom(edits, n - 1, k);
    }
  }

  /** The chosen edits are in range, left to right and disjoint. */
  lemma {:induction false} PicksAreDisjoint(edits: seq<Edit>, text: string, n: nat)
    requires n <= |edits| && InRange(edits, text)
    ensures InRange(Picks(edits, n), text) && Disjoint(Picks(edits, n))
  {
    if n > 0 {
      PicksAreDisjoint(edits, text, n - 1);
    }
  }

  ghost predicate Answered(picks: seq<Edit>, e: Edit, k: nat) {
    k < |picks| && (picks[k] == e || picks[k].start <= e.start < picks[k].end)
  }

  /** Every requested edit is chosen or starts inside a chosen one. */
  lemma {:induction false} EveryEditAnswered(edits: seq<Edit>, n: nat, i: nat) returns (k: nat)
    requires i < n <= |edits| && ByStartEdits(edits) && 0 <= edits[0].start
    ensures Answered(Picks(edits, n), edits[i], k)
  {
    var ps := Picks(edits, n - 1);
    if i < n - 1 {
      k := EveryEditAnswered(edits, n - 1, i);
    } else {
      k := |Picks(edits, n)| - 1;
      if edits[n - 1].start < EndAt(ps, |ps|) && ps != [] {
        var j := PickedFrom(edits, n - 1, |ps| - 1);
      }
    }
  }

  // ---- rewriting ----

  function Stars(n: nat): (r: string)
    ensures |r| == n && forall i :: 0 <= i < n ==> r[i] == '*'
  {
    seq(n, _ => '*')
  }

  function Replacement(text: string, e: Edit): string
    requires 0 <= e.start <= e.end <= |text|
  {
    match e.rewrite
    case Redact => "[" + e.tag + "-REDACTED]"
    case Mask =>
      var seg := text[e.start..e.end];
      if |seg| > 4 then Stars(|seg| - 4) + seg[|seg| - 4..] else Stars(|seg|)
  }

  function PatchOf(text: string, e: Edit): Patch
    requires 0 <= e.start <= e.end <= |text|
  {
    Patch(e.start, e.end, Replacement(text, e))
  }

  function Patches(text: string, picks: seq<Edit>): (ps: seq<Patch>)
    requires InRange(picks, text)
    ensures |ps| == |picks| && forall i :: 0 <= i < |ps| ==> ps[i] == PatchOf(text, picks[i])
    ensures Splice.InRange(ps, text) && (Disjoint(picks) ==> Splice.Disjoint(ps))
  {
    seq(|picks|, i requires 0 <= i < |picks| => PatchOf(text, picks[i]))
  }

  /** The text with the chosen edits applied. */
  function Rewritten(text: string, picks: seq<Edit>): string
    requires InRange(picks, text) && Disjoint(picks)
  {
    Spliced(text, Patches(text, picks))
  }

  /** Masking never changes the length. */
  lemma MaskKeepsLength(text: string, picks: seq<Edit>)
    requires InRange(picks, text) && Disjoint(picks)
    requires forall i :: 0 <= i < |picks| ==> picks[i].rewrite == Mask
    ensures |Rewritten(text, picks)| == |text|
  {
    SplicedLength(text, Patches(text, picks));
    EqualLengthsShiftNothing(Patches(text, picks), |picks|);
  }

  // ---- the implementation ----

  /** The action list without repeats, first occurrences in order. */
  function Distinct(s: seq<string>, n: nat): seq<string>
    requires n <= |s|
  {
    if n == 0 then []
    else if s[n - 1] in Distinct(s, n - 1) then Distinct(s, n - 1)
    else Distinct(s, n - 1) + [s[n - 1]]
  }

  lemma {:induction false} DistinctIsFirstOccurrences(s: seq<string>, n: nat)
    requires n <= |s|
    ensures forall x :: x in Distinct(s, n) <==> x in s[..n]
    ensures forall i, j :: 0 <= i < j < |Distinct(s, n)| ==> Distinct(s, n)[i] != Distinct(s, n)[j]
    ensures forall i, j, m :: 0 <= i < j < |Distinct(s, n)| && 0 <= m < n && s[m] == Distinct(s, n)[j] ==>
      Distinct(s, n)[i] in s[..m]
  {
    if n > 0 {
      DistinctIsFirstOccurrences(s, n - 1);
      assert s[..n] == s[..n - 1] + [s[n - 1]];
      var d := Distinct(s, n - 1);
      assert forall k :: 0 <= k < |d| ==> d[k] in d;
    }
  }

  /** Removes repeats in place; the result is a[..n]. */
  method DedupStrings(a: array<string>) returns (n: nat)
    modifies a
    ensures n <= a.Length && a[..n] == Distinct(old(a[..]), a.Length)
  {
    ghost var s, kept := a[..], [];
    if a.Length < 2 {
      assert a.Length == 1 ==> Distinct(s, 0) == [];
      return a.Length;
    }
    var seen: set<string> := {};
    n := 0;
    for i := 0 to a.Length
      invariant n == |kept| <= i && kept == Distinct(s, i)
      invariant forall x :: x in seen <==> x in kept
      invariant forall k :: 0 <= k < n ==> a[k] == kept[k]
      invariant forall k :: i <= k < a.Length ==> a[k] == s[k]
    {
      if a[i] in seen {
        continue;
      }
      seen, kept := seen + {a[i]}, kept + [a[i]];
      a[n] := a[i];
      n := n + 1;
    }
  }

  ghost predicate SameEdits(a: seq<Edit>, b: seq<Edit>) {
    multiset(a) == multiset(b)
  }

  function InsertEdit(e: Edit, s: seq<Edit>): seq<Edit> {
    if s == [] || e.start <= s[0].start then [e] + s else [s[0]] + InsertEdit(e, s[1..])
  }

  /** Some order of the edits by start; the source's sort leaves ties open. */
  function SortEdits(s: seq<Edit>): seq<Edit> {
    if s == [] then [] else InsertEdit(s[0], SortEdits(s[1..]))
  }

  lemma {:induction false} InsertEditSorts(e: Edit, s: seq<Edit>)
    requires ByStartEdits(s)
    ensures ByStartEdits(InsertEdit(e, s)) && multiset(InsertEdit(e, s)) == multiset(s) + multiset{e}
    ensures InsertEdit(e, s)[0] == e || (s != [] && InsertEdit(e, s)[0] == s[0])
  {
    if s != [] && e.start > s[0].start {
      assert s == [s[0]] + s[1..];
      InsertEditSorts(e, s[1..]);
      PutFirst(s[0], InsertEdit(e, s[1..]));
    } else {
      PutFirst(e, s);
    }
  }

  lemma PutFirst(e: Edit, s: seq<Edit>)
    requires ByStartEdits(s) && (s != [] ==> e.start <= s[0].start)
    ensures ByStartEdits([e] + s) && multiset([e] + s) == multiset(s) + multiset{e}
  {
    forall i | 0 <= i < |s| ensures e.start <= s[i].start {
      assert s[0].start <= s[i].start;
    }
  }

  lemma {:induction false} SortEditsSorts(s: seq<Edit>)
    ensures ByStartEdits(SortEdits(s)) && SameEdits(SortEdits(s), s)
  {
    if s != [] {
      assert s == [s[0]] + s[1..];
      SortEditsSorts(s[1..]);
      InsertEditSorts(s[0], SortEdits(s[1..]));
    }
  }

  lemma PermutedInRange(a: seq<Edit>, b: seq<Edit>, text: string)
    requires SameEdits(a, b) && InRange(a, text)
    ensures InRange(b, text)
  {
    forall i | 0 <= i < |b| ensures 0 <= b[i].start <= b[i].end <= |text| {
      assert b[i] in multiset(a);
    }
  }

  /** The output once the chosen edits so far are written. */
  ghost function Draft(text: string, picks: seq<Edit>): string
    requires InRange(picks, text) && Disjoint(picks)
  {
    Written(text, Patches(text, picks), |picks|)
  }

  lemma DraftOneMore(text: string, edits: seq<Edit>, i: nat)
    requires i < |edits| && InRange(edits, text)
    ensures var ps, e := Picks(edits, i), edits[i];
      && InRange(ps, text) && Disjoint(ps) && 0 <= e.start <= e.end <= |text| && 0 <= EndAt(ps, |ps|)
      && (e.start < EndAt(ps, |ps|) ==> Picks(edits, i + 1) == ps)
      && (e.start >= EndAt(ps, |ps|) ==>
        && InRange(ps + [e], text) && Disjoint(ps + [e]) && Picks(edits, i + 1) == ps + [e]
        && Draft(text, ps + [e]) == Draft(text, ps) + text[EndAt(ps, |ps|)..e.start] + Replacement(text, e))
  {
    var picks, e := Picks(edits, i), edits[i];
    PicksAreDisjoint(edits, text, i);
    PicksAreDisjoint(edits, text, i + 1);
    if e.start >= EndAt(picks, |picks|) {
      WrittenNext(text, Patches(text, picks), Patches(text, picks + [e]));
    }
  }

  /** Walks the sorted edits with a cursor and appends to the output. */
  method RewriteOnce(text: string, edits: seq<Edit>) returns (out: string)
    requires InRange(edits, text)
    ensures InRange(Picks(edits, |edits|), text) && Disjoint(Picks(edits, |edits|))
    ensures out == Rewritten(text, Picks(edits, |edits|))
  {
    out := "";
    var pos := 0;
    ghost var picks: seq<Edit> := [];
    for i := 0 to |edits|
      invariant picks == Picks(edits, i) && InRange(picks, text) && Disjoint(picks)
      invariant pos == EndAt(picks, |picks|)
      invariant out == Draft(text, picks)
    {
      var e := edits[i];
      DraftOneMore(text, edits, i);
      if e.start < pos {
        continue;
      }
      var filler := MakeReplacement(text, e);
      out := out + text[pos..e.start] + filler;
      pos, picks := e.end, picks + [e];
    }
    out := out + text[pos..];
  }

  method MakeReplacement(text: string, e: Edit) returns (filler: string)
    requires 0 <= e.start <= e.end <= |text|
    ensures filler == Replacement(text, e)
  {
    match e.rewrite {
      case Redact =>
        filler := "[" + e.tag + "-REDACTED]";
      case Mask =>
        var seg := text[e.start..e.end];
        if |seg| > 4 {
          filler := Stars(|seg| - 4) + seg[|seg| - 4..];
        } else {
          filler := Stars(|seg|);
        }
    }
  }

  /** What the failing outcomes ask for, in order. */
  method Collect(ocs: seq<Outcome>) returns (edits: seq<Edit>, taken: seq<string>, block: bool)
    ensures edits == Edits(ocs, |ocs|) && taken == ActionList(ocs, |ocs|) && (block <==> Blocks(ocs, |ocs|))
  {
    edits, taken, block := [], [], false;
    for i := 0 to |ocs|
      invariant edits == Edits(ocs, i) && taken == ActionList(ocs, i)
      invariant block <==> Blocks(ocs, i)
    {
      var oc := ocs[i];
      if oc.verdict != "FAIL" || oc.guard.shadow {
        continue;
      }
      var a := oc.guard.onFail;
      if a == "block" || a == "block_and_explain" {
        block, taken := true, taken + [a];
        continue;
      }
      if a == "redact" || a == "mask" {
        for j := 0 to |oc.spans|
          invariant edits == Edits(ocs, i) + EditsOfSpans(oc.spans, if a == "redact" then Redact else Mask, j)
        {
          var s := oc.spans[j];
          edits := edits + [Edit(s.start, s.end, s.tag, if a == "redact" then Redact else Mask)];
        }
        taken := taken + [a];
      } else if a == "flag" {
        taken := taken + ["flag"];
      } else if a == "reask" || a == "rewrite" {
        taken := taken + [a + ":deferred"];
      }
    }
  }

  lemma NothingToRewrite(text: string)
    ensures Rewritten(text, []) == text
  {
  }

  // ---- laws ----

  ghost predicate PairwiseDisjoint(r: seq<Edit>) {
    && (forall i :: 0 <= i < |r| ==> r[i].start < r[i].end)
    && forall i, j :: 0 <= i < j < |r| ==> r[i].end <= r[j].start || r[j].end <= r[i].start
  }

  lemma {:induction false} TwiceMeansTwoPlaces(r: seq<Edit>, x: Edit) returns (i: nat, j: nat)
    requires multiset(r)[x] >= 2
    ensures i < j < |r| && r[i] == r[j] == x
  {
    var init, last := r[..|r| - 1], r[|r| - 1];
    assert r == init + [last];
    if last == x {
      j := |r| - 1;
      assert x in multiset(init);
      i :| 0 <= i < |init| && init[i] == x;
    } else {
      i, j := TwiceMeansTwoPlaces(init, x);
    }
  }

  lemma SortedIsDisjoint(r: seq<Edit>, a: seq<Edit>)
    requires PairwiseDisjoint(r) && SameEdits(r, a) && ByStartEdits(a)
    ensures Disjoint(a) && forall i :: 0 <= i < |a| ==> a[i].start < a[i].end
  {
    forall i | 0 <= i < |a| ensures a[i].start < a[i].end {
      assert a[i] in multiset(r);
    }
    forall i, j | 0 <= i < j < |a| ensures a[i].end <= a[j].start {
      TwoOfThem(r, a, i, j);
    }
  }

  lemma TwoPlacesMeanTwice(a: seq<Edit>, i: nat, j: nat)
    requires i < j < |a| && a[i] == a[j]
    ensures multiset(a)[a[j]] >= 2
  {
    assert a == a[..j] + ([a[j]] + a[j + 1..]);
    assert a[i] in a[..j];
    assert multiset(a) == multiset(a[..j]) + (multiset{a[j]} + multiset(a[j + 1..]));
  }

  lemma TwoOfThem(r: seq<Edit>, a: seq<Edit>, i: nat, j: nat)
    requires PairwiseDisjoint(r) && SameEdits(r, a) && i < j < |a|
    ensures a[i].end <= a[j].start || a[j].end <= a[i].start
  {
    if a[i] == a[j] {
      TwoPlacesMeanTwice(a, i, j);
      var m, n := TwiceMeansTwoPlaces(r, a[j]);
    } else {
      assert a[i] in multiset(r) && a[j] in multiset(r);
      var m :| 0 <= m < |r| && r[m] == a[i];
      var n :| 0 <= n < |r| && r[n] == a[j];
    }
  }

  lemma FirstIsUnique(a: seq<Edit>, b: seq<Edit>)
    requires a != [] && b != [] && SameEdits(a, b) && ByStartEdits(a) && ByStartEdits(b)
    requires Disjoint(a) && a[0].start < a[0].end
    ensures a[0] == b[0]
  {
    assert a[0] in multiset(b) && b[0] in multiset(a);
    var k :| 0 <= k < |b| && b[k] == a[0];
    var m :| 0 <= m < |a| && a[m] == b[0];
    assert b[0].start <= b[k].start;
  }

  lemma TailsSame(a: seq<Edit>, b: seq<Edit>)
    requires a != [] && b != [] && SameEdits(a, b) && a[0] == b[0]
    ensures SameEdits(a[1..], b[1..])
  {
    RestOfBag(a);
    RestOfBag(b);
  }

  lemma RestOfBag(a: seq<Edit>)
    requires a != []
    ensures multiset(a[1..]) == multiset(a) - multiset{a[0]}
  {
    assert a == [a[0]] + a[1..];
  }

  lemma {:induction false} SortedOrderIsUnique(a: seq<Edit>, b: seq<Edit>)
    requires SameEdits(a, b) && ByStartEdits(a) && ByStartEdits(b)
    requires Disjoint(a) && forall i :: 0 <= i < |a| ==> a[i].start < a[i].end
    ensures a == b
  {
    SameSize(a, b);
    if a != [] {
      FirstIsUnique(a, b);
      TailsSame(a, b);
      SortedOrderIsUnique(a[1..], b[1..]);
      assert a == [a[0]] + a[1..] && b == [b[0]] + b[1..];
    }
  }

  lemma SameSize(a: seq<Edit>, b: seq<Edit>)
    requires SameEdits(a, b)
    ensures |a| == |b|
  {
    assert |a| == |multiset(a)| == |multiset(b)| == |b|;
  }

  lemma {:induction false} DisjointAreAllPicked(a: seq<Edit>, text: string, n: nat)
    requires n <= |a| && Disjoint(a) && InRange(a, text)
    ensures Picks(a, n) == a[..n]
  {
    if n > 0 {
      DisjointAreAllPicked(a, text, n - 1);
    }
  }

  /** Pairwise disjoint non-empty spans are all rewritten, and neither the order of the outcomes nor
      the sort matters. */
  lemma DisjointSpansAllRewritten(requested: seq<Edit>, permuted: seq<Edit>, a: seq<Edit>, b: seq<Edit>, text: string)
    requires PairwiseDisjoint(requested) && InRange(requested, text)
    requires SameEdits(requested, permuted) && SameEdits(requested, a) && SameEdits(permuted, b)
    requires ByStartEdits(a) && ByStartEdits(b)
    ensures Picks(a, |a|) == a == b == Picks(b, |b|)
  {
    SortedIsDisjoint(requested, a);
    SortedOrderIsUnique(a, b);
    PermutedInRange(requested, a, text);
    DisjointAreAllPicked(a, text, |a|);
    assert a[..|a|] == a;
  }

  /** The outcomes that act: failing and not shadow. */
  function Acting(ocs: seq<Outcome>, n: nat): seq<Outcome>
    requires n <= |ocs|
  {
    if n == 0 then []
    else if Acts(ocs[n - 1]) then Acting(ocs, n - 1) + [ocs[n - 1]]
    else Acting(ocs, n - 1)
  }

  lemma {:induction false} EditsAgree(s: seq<Outcome>, t: seq<Outcome>, n: nat)
    requires n <= |s| && n <= |t| && forall i :: 0 <= i < n ==> s[i] == t[i]
    ensures Edits(s, n) == Edits(t, n)
  {
    if n > 0 {
      EditsAgree(s, t, n - 1);
    }
  }

  lemma {:induction false} ActionsAgree(s: seq<Outcome>, t: seq<Outcome>, n: nat)
    requires n <= |s| && n <= |t| && forall i :: 0 <= i < n ==> s[i] == t[i]
    ensures ActionList(s, n) == ActionList(t, n)
  {
    if n > 0 {
      ActionsAgree(s, t, n - 1);
    }
  }

  lemma OneMoreOutcome(s: seq<Outcome>, oc: Outcome, more: seq<Outcome>)
    requires more == s + [oc]
    ensures Edits(more, |more|) == Edits(s, |s|) + EditsOf(oc)
    ensures ActionList(more, |more|) == ActionList(s, |s|) + ActionsOf(oc)
  {
    EditsAgree(s, more, |s|);
    ActionsAgree(s, more, |s|);
  }

  lemma IdleOutcome(oc: Outcome)
    requires !Acts(oc)
    ensures EditsOf(oc) == [] && ActionsOf(oc) == []
  {
  }

  lemma AppendsNothing<T>(x: seq<T>, y: seq<T>)
    requires y == []
    ensures x + y == x
  {
  }

  lemma ActingMore(ocs: seq<Outcome>, n: nat)
    requires 0 < n <= |ocs|
    ensures Acting(ocs, n) == Acting(ocs, n - 1) + if Acts(ocs[n - 1]) then [ocs[n - 1]] else []
  {
  }

  lemma {:induction false} EditsOfActing(ocs: seq<Outcome>, n: nat, acting: seq<Outcome>)
    requires n <= |ocs| && acting == Acting(ocs, n)
    ensures Edits(acting, |acting|) == Edits(ocs, n)
  {
    if n > 0 {
      var oc, before := ocs[n - 1], Acting(ocs, n - 1);
      EditsOfActing(ocs, n - 1, before);
      ActingMore(ocs, n);
      if Acts(oc) {
        OneMoreOutcome(before, oc, acting);
      } else {
        IdleOutcome(oc);
        AppendsNothing(Edits(ocs, n - 1), EditsOf(oc));
      }
    }
  }

  lemma {:induction false} ActionsOfActing(ocs: seq<Outcome>, n: nat, acting: seq<Outcome>)
    requires n <= |ocs| && acting == Acting(ocs, n)
    ensures ActionList(acting, |acting|) == ActionList(ocs, n)
  {
    if n > 0 {
      var oc, before := ocs[n - 1], Acting(ocs, n - 1);
      ActionsOfActing(ocs, n - 1, before);
      ActingMore(ocs, n);
      if Acts(oc) {
        OneMoreOutcome(before, oc, acting);
      } else {
        IdleOutcome(oc);
        AppendsNothing(ActionList(ocs, n - 1), ActionsOf(oc));
      }
    }
  }

  /** Deleting shadow and non-failing outcomes changes neither the edits nor the actions. */
  lemma IdleOutcomesDoNothing(ocs: seq<Outcome>, n: nat)
    requires n <= |ocs|
    ensures Edits(Acting(ocs, n), |Acting(ocs, n)|) == Edits(ocs, n)
    ensures ActionList(Acting(ocs, n), |Acting(ocs, n)|) == ActionList(ocs, n)
  {
    EditsOfActing(ocs, n, Acting(ocs, n));
    ActionsOfActing(ocs, n, Acting(ocs, n));
  }

  /** Nor whether the request is blocked. */
  lemma {:induction false} IdleOutcomesNeverBlock(ocs: seq<Outcome>, n: nat)
    requires n <= |ocs|
    ensures Blocks(Acting(ocs, n), |Acting(ocs, n)|) <==> Blocks(ocs, n)
  {
    if n > 0 {
      IdleOutcomesNeverBlock(ocs, n - 1);
      BlocksSplit(ocs, n - 1);
      var s := Acting(ocs, n - 1);
      if Acts(ocs[n - 1]) {
        var t := s + [ocs[n - 1]];
        BlocksSplit(t, |s|);
        BlocksAgree(s, t, |s|);
      }
    }
  }

  lemma BlocksSplit(s: seq<Outcome>, n: nat)
    requires n < |s|
    ensures Blocks(s, n + 1) <==> Blocks(s, n) || (Acts(s[n]) && IsBlock(s[n].guard.onFail))
  {
  }

  lemma BlocksAgree(s: seq<Outcome>, t: seq<Outcome>, n: nat)
    requires n <= |s| && n <= |t| && forall i :: 0 <= i < n ==> s[i] == t[i]
    ensures Blocks(s, n) ==> Blocks(t, n)
    ensures Blocks(t, n) ==> Blocks(s, n)
  {
  }
}
