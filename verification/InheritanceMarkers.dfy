/** Removal markers and the order of composing three layers: when both orders hold the same guard ids. */
module InheritanceMarkers {
  import opened Utf8
  import opened Json
  import opened Inheritance
  import opened InheritanceLaws
  import opened InheritanceIds

  predicate Has(gs: seq<Json>, id: Json) {
    LastById(gs, id).Some?
  }

  /** The list asks for the guard of this id to be removed. */
  predicate Removes(gs: seq<Json>, id: Json) {
    Has(gs, id) && Marked(LastById(gs, id).value)
  }

  // ---- the guard of one id in a merged list ----

  lemma {:induction false} LastByIdAddedMarked(ps: seq<Json>, cs: seq<Json>, id: Json)
    requires GuardsOk(cs) && Distinct(Ids(cs))
    ensures LastById(Added(ps, cs), id) == if Has(ps, id) || Removes(cs, id) then None else LastById(cs, id)
  {
    if cs != [] {
      assert Ids(cs[1..]) == Ids(cs)[1..];
      LastByIdAddedMarked(ps, cs[1..], id);
      assert cs == [cs[0]] + cs[1..];
      LastByIdConcat([cs[0]], cs[1..], id);
      LastByIdConcat([cs[0]], Added(ps, cs[1..]), id);
      LastByIdOfDistinct(cs, 0);
    }
  }

  lemma MergedHas(ps: seq<Json>, cs: seq<Json>, id: Json)
    requires GuardsOk(ps) && GuardsOk(cs) && Distinct(Ids(cs))
    ensures Has(MergedGuards(ps, cs), id) <==> !Removes(cs, id) && (Has(ps, id) || Has(cs, id))
  {
    LastByIdConcat(Kept(ps, cs), Added(ps, cs), id);
    LastByIdKept(ps, cs, id);
    LastByIdAddedMarked(ps, cs, id);
  }

  lemma MergedRemoves(ps: seq<Json>, cs: seq<Json>, id: Json)
    requires GuardsOk(ps) && GuardsOk(cs) && Distinct(Ids(cs))
    ensures Removes(MergedGuards(ps, cs), id) <==>
      (Removes(ps, id) && !Removes(cs, id)
        && (Has(cs, id) ==> StaysMarked(LastById(ps, id).value, LastById(cs, id).value)))
  {
    LastByIdConcat(Kept(ps, cs), Added(ps, cs), id);
    LastByIdKept(ps, cs, id);
    LastByIdAddedMarked(ps, cs, id);
    if Has(ps, id) && Has(cs, id) {
      var i := LastByIdIsIn(ps, id);
      var j := LastByIdIsIn(cs, id);
      if !Marked(cs[j]) {
        MarkerSurvives(ps[i], cs[j]);
      }
    }
  }

  /** A marked guard keeps its marker under a later one that says nothing about it, or that says {}
      where the marker is itself a dict. */
  predicate StaysMarked(g: Json, h: Json) {
    g.Obj? && h.Obj? &&
    (Find(h.members, "__remove__").None?
      || (Find(h.members, "__remove__").value.Obj? && Find(g.members, "__remove__").Some?
          && Find(g.members, "__remove__").value.Obj?))
  }

  /** Under an unmarked guard only a marked one can stay marked. */
  lemma MarkerSurvives(g: Json, h: Json)
    requires g.Obj? && h.Obj? && !Marked(h)
    ensures Marked(Merged(g, h, false)) <==> Marked(g) && StaysMarked(g, h)
  {
    FindMerged(g, h, false, "__remove__");
    var x, y := Find(g.members, "__remove__"), Find(h.members, "__remove__");
    if x.Some? && y.Some? && x.value.Obj? && y.value.Obj? {
      assert y.value == Obj([]);
      EmptyChild(x.value, EndsWith("__remove__", "spec"));
    }
  }

  // ---- merged lists are lists of guards ----

  lemma {:induction false} KeptOk(ps: seq<Json>, cs: seq<Json>)
    requires GuardsOk(ps) && GuardsOk(cs)
    ensures GuardsOk(Kept(ps, cs))
  {
    if ps != [] {
      KeptOk(ps[1..], cs);
      if Has(cs, GuardKey(ps[0])) {
        var i := LastByIdIsIn(cs, GuardKey(ps[0]));
        MergedGuardKeepsId(ps[0], cs[i]);
      }
    }
  }

  lemma {:induction false} AddedOk(ps: seq<Json>, cs: seq<Json>)
    requires GuardsOk(cs)
    ensures GuardsOk(Added(ps, cs))
  {
    if cs != [] {
      AddedOk(ps, cs[1..]);
    }
  }

  // ---- three layers ----

  /** What makes the two orders differ on an id: the third layer removes a guard of the first, or
      takes up one that the second removes, without cancelling the marker. */
  predicate Broken(a: seq<Json>, b: seq<Json>, c: seq<Json>, id: Json) {
    || (Has(a, id) && Removes(c, id))
    || (Removes(b, id) && Has(c, id) && !Removes(c, id) && StaysMarked(LastById(b, id).value, LastById(c, id).value))
  }

  predicate SameEitherWay(a: seq<Json>, b: seq<Json>, c: seq<Json>, id: Json) {
    Has(MergedGuards(MergedGuards(a, b), c), id) <==> Has(MergedGuards(a, MergedGuards(b, c)), id)
  }

  lemma MarkersAssociateAt(a: seq<Json>, b: seq<Json>, c: seq<Json>, id: Json)
    requires GuardsOk(a) && GuardsOk(b) && GuardsOk(c) && Distinct(Ids(b)) && Distinct(Ids(c))
    ensures SameEitherWay(a, b, c, id) <==> !Broken(a, b, c, id)
  {
    KeptOk(a, b);
    AddedOk(a, b);
    KeptOk(b, c);
    AddedOk(b, c);
    IdsStayDistinct(b, c);
    MergedHas(MergedGuards(a, b), c, id);
    MergedHas(a, b, id);
    MergedHas(a, MergedGuards(b, c), id);
    MergedHas(b, c, id);
    MergedRemoves(b, c, id);
  }

  /** Both orders of composing three guard lists hold the same ids exactly when no id is broken. */
  lemma MarkersAssociate(a: seq<Json>, b: seq<Json>, c: seq<Json>)
    requires GuardsOk(a) && GuardsOk(b) && GuardsOk(c) && Distinct(Ids(b)) && Distinct(Ids(c))
    ensures (forall id :: SameEitherWay(a, b, c, id)) <==> (forall id :: !Broken(a, b, c, id))
  {
    forall id ensures SameEitherWay(a, b, c, id) <==> !Broken(a, b, c, id) {
      MarkersAssociateAt(a, b, c, id);
    }
  }

  // ---- the guards themselves ----

  /** The third layer removes no guard of the first, and takes up none that the second removes. */
  predicate NoClash(a: seq<Json>, b: seq<Json>, c: seq<Json>) {
    && (forall i :: 0 <= i < |a| ==> !Removes(c, GuardKey(a[i])))
    && forall i :: 0 <= i < |b| && Marked(b[i]) ==> !Has(c, GuardKey(b[i])) || Removes(c, GuardKey(b[i]))
  }

  lemma {:induction false} KeptParts(a: seq<Json>, b: seq<Json>, cs: seq<Json>)
    ensures Kept(a + b, cs) == Kept(a, cs) + Kept(b, cs)
  {
    if a == [] {
      assert a + b == b;
    } else {
      assert (a + b)[1..] == a[1..] + b;
      KeptParts(a[1..], b, cs);
    }
  }

  /** The guard of one id in a merged list. */
  lemma LastByIdOfMerged(ps: seq<Json>, cs: seq<Json>, id: Json)
    requires GuardsOk(ps) && GuardsOk(cs) && Distinct(Ids(cs))
    ensures LastById(MergedGuards(ps, cs), id) ==
      if Removes(cs, id) then None
      else if !Has(ps, id) then LastById(cs, id)
      else if !Has(cs, id) then LastById(ps, id)
      else Some(Merged(LastById(ps, id).value, LastById(cs, id).value, false))
  {
    LastByIdConcat(Kept(ps, cs), Added(ps, cs), id);
    LastByIdKept(ps, cs, id);
    LastByIdAddedMarked(ps, cs, id);
  }

  /** What is left of one guard of the first layer. */
  lemma GuardEitherWay(g: Json, b: seq<Json>, c: seq<Json>)
    requires GuardOk(g) && GuardsOk(b) && GuardsOk(c) && Distinct(Ids(c)) && AlignedGuard(g, b, c)
    requires !Removes(c, GuardKey(g)) && (Removes(b, GuardKey(g)) ==> !Has(c, GuardKey(g)))
    ensures Kept(Kept([g], b), c) == Kept([g], MergedGuards(b, c))
  {
    var key := GuardKey(g);
    var h, k := LastById(b, key), LastById(c, key);
    LastByIdOfMerged(b, c, key);
    KeptOne(g, b);
    KeptOne(g, MergedGuards(b, c));
    if h.None? {
      KeptOne(g, c);
    } else {
      var i := LastByIdIsIn(b, key);
      if !Marked(h.value) {
        MergedGuardKeepsId(g, h.value);
        KeptOne(Merged(g, h.value, false), c);
        if k.Some? {
          var j := LastByIdIsIn(c, key);
          MergedGuardStaysUnmarkedAny(h.value, k.value);
          Associative(g, h.value, k.value, false);
        }
      }
    }
  }

  lemma MergedGuardStaysUnmarkedAny(h: Json, k: Json)
    requires h.Obj? && k.Obj? && !Marked(h) && !Marked(k)
    ensures !Marked(Merged(h, k, false))
  {
    MarkerSurvives(h, k);
  }

  lemma {:induction false} KeptEitherWay(a: seq<Json>, b: seq<Json>, c: seq<Json>)
    requires GuardsOk(a) && GuardsOk(b) && GuardsOk(c) && Distinct(Ids(b)) && Distinct(Ids(c)) && NoClash(a, b, c)
    requires forall i :: 0 <= i < |a| ==> AlignedGuard(a[i], b, c)
    ensures Kept(Kept(a, b), c) == Kept(a, MergedGuards(b, c))
  {
    if a != [] {
      KeptEitherWay(a[1..], b, c);
      if Removes(b, GuardKey(a[0])) {
        var i := LastByIdIsIn(b, GuardKey(a[0]));
      }
      GuardEitherWay(a[0], b, c);
      assert a == [a[0]] + a[1..];
      KeptParts([a[0]], a[1..], b);
      KeptParts(Kept([a[0]], b), Kept(a[1..], b), c);
      KeptParts([a[0]], a[1..], MergedGuards(b, c));
    }
  }

  /** bs is what is left to look at of the second list. */
  lemma {:induction false} AddedEitherWay(a: seq<Json>, bs: seq<Json>, c: seq<Json>)
    requires GuardsOk(bs) && GuardsOk(c)
    requires forall i :: 0 <= i < |bs| && Marked(bs[i]) ==> !Has(c, GuardKey(bs[i])) || Removes(c, GuardKey(bs[i]))
    ensures Kept(Added(a, bs), c) == Added(a, Kept(bs, c))
  {
    if bs != [] {
      AddedEitherWay(a, bs[1..], c);
      var x, key := bs[0], GuardKey(bs[0]);
      assert bs == [x] + bs[1..];
      KeptParts([x], bs[1..], c);
      KeptOne(x, c);
      AddedConcat(a, Kept([x], c), Kept(bs[1..], c));
      AddedOne(a, x);
      if Has(c, key) && !Removes(c, key) {
        var i := LastByIdIsIn(c, key);
        MergedGuardKeepsId(x, c[i]);
        MergedGuardStaysUnmarkedAny(x, c[i]);
        AddedOne(a, Merged(x, c[i], false));
      }
      if !Has(a, key) && !Marked(x) {
        KeptParts([x], Added(a, bs[1..]), c);
      }
    }
  }

  lemma AddedOne(a: seq<Json>, x: Json)
    ensures Added(a, [x]) == if Has(a, GuardKey(x)) || Marked(x) then [] else [x]
    ensures Added(a, []) == []
  {
    assert [x][1..] == [];
  }

  /** cs is what is left to look at of the third list. */
  lemma {:induction false} AddedTwice(a: seq<Json>, b: seq<Json>, cs: seq<Json>)
    requires GuardsOk(a) && GuardsOk(b) && Distinct(Ids(b))
    requires forall j :: 0 <= j < |cs| && !Marked(cs[j]) ==> !Removes(b, GuardKey(cs[j]))
    ensures Added(MergedGuards(a, b), cs) == Added(a, Added(b, cs))
  {
    if cs != [] {
      AddedTwice(a, b, cs[1..]);
      MergedHas(a, b, GuardKey(cs[0]));
    }
  }

  lemma TakesUpNone(b: seq<Json>, c: seq<Json>)
    requires GuardsOk(b) && GuardsOk(c) && Distinct(Ids(c))
    requires forall i :: 0 <= i < |b| && Marked(b[i]) ==> !Has(c, GuardKey(b[i])) || Removes(c, GuardKey(b[i]))
    ensures forall j :: 0 <= j < |c| && !Marked(c[j]) ==> !Removes(b, GuardKey(c[j]))
  {
    forall j | 0 <= j < |c| && !Marked(c[j]) ensures !Removes(b, GuardKey(c[j])) {
      LastByIdOfDistinct(c, j);
      if Removes(b, GuardKey(c[j])) {
        var i := LastByIdIsIn(b, GuardKey(c[j]));
      }
    }
  }

  lemma Rebracket(k: seq<Json>, x: seq<Json>, y: seq<Json>)
    ensures (k + x) + y == k + (x + y)
  {
  }

  lemma LeftParts(a: seq<Json>, b: seq<Json>, c: seq<Json>)
    ensures MergedGuards(MergedGuards(a, b), c)
      == (Kept(Kept(a, b), c) + Kept(Added(a, b), c)) + Added(MergedGuards(a, b), c)
  {
    KeptParts(Kept(a, b), Added(a, b), c);
  }

  lemma RightParts(a: seq<Json>, b: seq<Json>, c: seq<Json>)
    ensures MergedGuards(a, MergedGuards(b, c))
      == Kept(a, MergedGuards(b, c)) + (Added(a, Kept(b, c)) + Added(a, Added(b, c)))
  {
    AddedConcat(a, Kept(b, c), Added(b, c));
  }

  /** With removal markers in any layer, but none that clashes with what a later one keeps, the two orders
      give the same list, order included. */
  lemma MarkedGuardsAssociate(a: seq<Json>, b: seq<Json>, c: seq<Json>)
    requires GuardsOk(a) && GuardsOk(b) && GuardsOk(c) && Distinct(Ids(b)) && Distinct(Ids(c)) && NoClash(a, b, c)
    requires forall i :: 0 <= i < |a| ==> AlignedGuard(a[i], b, c)
    ensures MergedGuards(MergedGuards(a, b), c) == MergedGuards(a, MergedGuards(b, c))
  {
    KeptEitherWay(a, b, c);
    AddedEitherWay(a, b, c);
    TakesUpNone(b, c);
    AddedTwice(a, b, c);
    LeftParts(a, b, c);
    RightParts(a, b, c);
    Rebracket(Kept(a, MergedGuards(b, c)), Added(a, Kept(b, c)), Added(a, Added(b, c)));
  }
}
