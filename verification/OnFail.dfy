/** What the failing guards of a request do to its text, in terms of their outcomes. */
module OnFail {
  import opened Spans
  import opened Splice
  import opened Actions

  // ---- what the outcomes ask for ----

  /** A failing guard in force asks for a span of its result to be redacted or masked. */
  ghost predicate Asks(oc: Outcome, e: Edit) {
    && oc.verdict == "FAIL" && !oc.guard.shadow
    && ((oc.guard.onFail == "redact" && e.rewrite == Redact) || (oc.guard.onFail == "mask" && e.rewrite == Mask))
    && exists j :: 0 <= j < |oc.spans| && SpanOf(oc.spans[j], e)
  }

  predicate SpanOf(s: Span, e: Edit) {
    e.start == s.start && e.end == s.end && e.tag == s.tag
  }

  ghost predicate Requested(ocs: seq<Outcome>, e: Edit) {
    exists i :: 0 <= i < |ocs| && Asks(ocs[i], e)
  }

  predicate AsksToBlock(oc: Outcome) {
    oc.verdict == "FAIL" && !oc.guard.shadow && (oc.guard.onFail == "block" || oc.guard.onFail == "block_and_explain")
  }

  /** A failing guard in force is reported by its action; two of them are deferred. */
  predicate Reports(oc: Outcome, action: string) {
    && oc.verdict == "FAIL" && !oc.guard.shadow
    && (if oc.guard.onFail in ["reask", "rewrite"] then action == oc.guard.onFail + ":deferred"
        else action == oc.guard.onFail && action in ["block", "block_and_explain", "redact", "mask", "flag"])
  }

  ghost predicate Reported(ocs: seq<Outcome>, action: string) {
    exists i :: 0 <= i < |ocs| && Reports(ocs[i], action)
  }

  lemma {:induction false} EditsOfSpansAre(spans: seq<Span>, rewrite: Rewrite, n: nat, e: Edit)
    requires n <= |spans|
    ensures e in EditsOfSpans(spans, rewrite, n) <==>
      (e.rewrite == rewrite && exists j :: 0 <= j < n && SpanOf(spans[j], e))
  {
    if n > 0 {
      EditsOfSpansAre(spans, rewrite, n - 1, e);
    }
  }

  lemma EditsOfAre(oc: Outcome, e: Edit)
    ensures e in EditsOf(oc) <==> Asks(oc, e)
  {
    EditsOfSpansAre(oc.spans, Redact, |oc.spans|, e);
    EditsOfSpansAre(oc.spans, Mask, |oc.spans|, e);
  }

  lemma {:induction false} EditsAre(ocs: seq<Outcome>, n: nat, e: Edit)
    requires n <= |ocs|
    ensures e in Edits(ocs, n) <==> exists i :: 0 <= i < n && Asks(ocs[i], e)
  {
    if n > 0 {
      EditsAre(ocs, n - 1, e);
      EditsOfAre(ocs[n - 1], e);
    }
  }

  lemma {:induction false} ActionsAre(ocs: seq<Outcome>, n: nat, action: string)
    requires n <= |ocs|
    ensures action in ActionList(ocs, n) <==> exists i :: 0 <= i < n && Reports(ocs[i], action)
  {
    if n > 0 {
      ActionsAre(ocs, n - 1, action);
      ActionsOfAre(ocs[n - 1], action);
    }
  }

  lemma ActionsOfAre(oc: Outcome, action: string)
    ensures action in ActionsOf(oc) <==> Reports(oc, action)
  {
  }

  /** A requested span that overlaps no other: a copy of it that asks for the same does not count. */
  ghost predicate Alone(ocs: seq<Outcome>, e: Edit) {
    && Requested(ocs, e) && e.start < e.end
    && forall x :: Requested(ocs, x) && x.start < e.end && e.start < x.end ==> x == e
  }

  /** How a span stands in the output from k on: a redaction as its label in brackets, a mask as stars
      and, when longer than four bytes, its last four. */
  ghost predicate StandsAt(text: string, out: string, e: Edit, k: int)
    requires 0 <= e.start <= e.end <= |text|
  {
    match e.rewrite
    case Redact =>
      WrittenAt(out, k, "[" + e.tag + "-REDACTED]")
    case Mask =>
      0 <= k <= |out| - (e.end - e.start) && IsMasked(out[k..k + (e.end - e.start)], text[e.start..e.end])
  }

  /** Stars, but for the last four bytes of a text of more than four. */
  predicate IsMasked(shown: string, seg: string) {
    |shown| == |seg| && forall j :: 0 <= j < |seg| ==> shown[j] == if |seg| > 4 && |seg| - 4 <= j then seg[j] else '*'
  }

  /** The span is the m-th chosen one, and stands where its first byte has moved to. */
  ghost predicate Stands(text: string, picks: seq<Edit>, e: Edit, m: nat)
    requires Actions.InRange(picks, text) && Actions.Disjoint(picks)
  {
    m < |picks| && picks[m] == e
      && StandsAt(text, Rewritten(text, picks), e, e.start + Shift(Patches(text, picks), m))
  }

  lemma PickStands(text: string, picks: seq<Edit>, m: nat)
    requires Actions.InRange(picks, text) && Actions.Disjoint(picks) && m < |picks| && picks[m].start < picks[m].end
    ensures Stands(text, picks, picks[m], m)
  {
    var k := picks[m].start + Shift(Patches(text, picks), m);
    ReplacementIsIn(text, picks, m, k);
    WrittenStands(text, Rewritten(text, picks), picks[m], k);
  }

  lemma WrittenStands(text: string, out: string, e: Edit, k: int)
    requires 0 <= e.start <= e.end <= |text| && WrittenAt(out, k, Replacement(text, e))
    ensures StandsAt(text, out, e, k)
  {
    if e.rewrite == Mask {
      MaskIsMasked(text, e);
    }
  }

  lemma MaskIsMasked(text: string, e: Edit)
    requires 0 <= e.start <= e.end <= |text| && e.rewrite == Mask
    ensures IsMasked(Replacement(text, e), text[e.start..e.end])
  {
  }

  /** The replacement of the m-th chosen edit, byte for byte. */
  lemma ReplacementIsIn(text: string, picks: seq<Edit>, m: nat, k: int)
    requires Actions.InRange(picks, text) && Actions.Disjoint(picks) && m < |picks| && picks[m].start < picks[m].end
    requires k == picks[m].start + Shift(Patches(text, picks), m)
    ensures WrittenAt(Rewritten(text, picks), k, Replacement(text, picks[m]))
  {
    ReplacementIsLong(text, picks[m]);
    WritesFiller(text, Patches(text, picks), m, k);
  }

  lemma ReplacementIsLong(text: string, e: Edit)
    requires 0 <= e.start < e.end <= |text|
    ensures Replacement(text, e) != ""
  {
  }

  /** A span that overlaps no other is chosen in whatever order the sort leaves the edits in. */
  lemma AloneIsPicked(ocs: seq<Outcome>, sorted: seq<Edit>, text: string, e: Edit) returns (m: nat)
    requires Alone(ocs, e) && ByStartEdits(sorted) && Actions.InRange(sorted, text)
    requires forall x :: x in sorted <==> Requested(ocs, x)
    ensures m < |Picks(sorted, |sorted|)| && Picks(sorted, |sorted|)[m] == e
  {
    var i :| 0 <= i < |sorted| && sorted[i] == e;
    m := EveryEditAnswered(sorted, |sorted|, i);
    var j := PickedFrom(sorted, |sorted|, m);
    assert sorted[j] in sorted;
  }

  // ---- the specification functions in terms of the outcomes ----

  lemma ActionsMean(ocs: seq<Outcome>, action: string)
    ensures action in Distinct(ActionList(ocs, |ocs|), |ActionList(ocs, |ocs|)|) <==> Reported(ocs, action)
  {
    var list := ActionList(ocs, |ocs|);
    DistinctIsFirstOccurrences(list, |list|);
    ActionsAre(ocs, |ocs|, action);
    assert list[..|list|] == list;
  }

  lemma EditsMean(ocs: seq<Outcome>, sorted: seq<Edit>, e: Edit)
    requires SameEdits(sorted, Edits(ocs, |ocs|))
    ensures e in sorted <==> Requested(ocs, e)
  {
    EditsAre(ocs, |ocs|, e);
    assert e in sorted <==> e in multiset(sorted);
    assert e in Edits(ocs, |ocs|) <==> e in multiset(Edits(ocs, |ocs|));
  }

  lemma RequestsInRange(ocs: seq<Outcome>, text: string)
    requires forall e :: Requested(ocs, e) ==> 0 <= e.start <= e.end <= |text|
    ensures Actions.InRange(Edits(ocs, |ocs|), text)
  {
    var edits := Edits(ocs, |ocs|);
    forall k | 0 <= k < |edits| ensures 0 <= edits[k].start <= edits[k].end <= |text| {
      EditsAre(ocs, |ocs|, edits[k]);
      assert Requested(ocs, edits[k]);
    }
  }

  lemma BlocksMeans(ocs: seq<Outcome>)
    ensures Blocks(ocs, |ocs|) <==> exists i :: 0 <= i < |ocs| && AsksToBlock(ocs[i])
  {
    if i :| 0 <= i < |ocs| && AsksToBlock(ocs[i]) {
      assert Acts(ocs[i]) && IsBlock(ocs[i].guard.onFail);
    }
  }

  /** The three results of applying the actions of all outcomes to the text. */
  method ApplyActions(text: string, ocs: seq<Outcome>)
    returns (mutated: string, block: bool, actions: seq<string>, ghost sorted: seq<Edit>)
    requires forall e :: Requested(ocs, e) ==> 0 <= e.start <= e.end <= |text|
    ensures block <==> exists i :: 0 <= i < |ocs| && AsksToBlock(ocs[i])
    ensures actions == Distinct(ActionList(ocs, |ocs|), |ActionList(ocs, |ocs|)|)
    ensures forall action :: action in actions <==> Reported(ocs, action)
    ensures SameEdits(sorted, Edits(ocs, |ocs|)) && ByStartEdits(sorted) && Actions.InRange(sorted, text)
    ensures forall e :: e in sorted <==> Requested(ocs, e)
    ensures Actions.InRange(Picks(sorted, |sorted|), text) && Actions.Disjoint(Picks(sorted, |sorted|))
    ensures mutated == if block then text else Rewritten(text, Picks(sorted, |sorted|))
    ensures forall e :: Alone(ocs, e) ==> exists m :: Stands(text, Picks(sorted, |sorted|), e, m)
  {
    var edits, taken;
    edits, taken, block := Collect(ocs);
    RequestsInRange(ocs, text);
    var list := new string[|taken|](i requires 0 <= i < |taken| => taken[i]);
    assert list[..] == taken;
    var n := DedupStrings(list);
    actions := list[..n];
    var order := SortEdits(edits);
    sorted := order;
    SortEditsSorts(edits);
    PermutedInRange(edits, order, text);
    PicksAreDisjoint(order, text, |order|);
    BlocksMeans(ocs);
    forall action ensures action in actions <==> Reported(ocs, action) {
      ActionsMean(ocs, action);
    }
    forall e ensures e in sorted <==> Requested(ocs, e) {
      EditsMean(ocs, sorted, e);
    }
    forall e | Alone(ocs, e) ensures exists m :: Stands(text, Picks(sorted, |sorted|), e, m) {
      var m := AloneIsPicked(ocs, sorted, text, e);
      PickStands(text, Picks(sorted, |sorted|), m);
    }
    if block || |edits| == 0 {
      mutated := text;
      if |edits| == 0 {
        assert |multiset(sorted)| == |multiset(edits)| == 0;
        NothingToRewrite(text);
      }
      return;
    }
    mutated := RewriteOnce(text, order);
  }
}
